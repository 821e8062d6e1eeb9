// The VSGL frame renderer, in its three near-identical versions (the
// stand-alone MyRenderer, the ModelViewer renderer, and the MiniEngine
// ModelViewer renderer with the hemispherical-convolution toggle). A frame
// moves its render targets into the states they are written in, clears them,
// and runs five passes in a fixed order: reflective shadow map (RSM), shadow
// map, VSGL generation (two compute dispatches that turn the RSM into
// spherical-Gaussian lights), depth pre-pass and lighting. Each pass records
// its commands on the frame's command context.
module FrameRenderer {
  import opened Wrappers
  import opened AlignMath
  import opened PixelFormats
  import opened GpuContext
  import opened CommandReplay

  /** Which of the three renderers. */
  datatype Variant = MyRenderer | ModelViewer | MiniEngineViewer

  /** Side of the square reflective shadow map (RSM_WIDTH). */
  const RSM_WIDTH: nat := 128
  /** Thread-group side of the VSGL generation shaders (THREAD_GROUP_WIDTH). */
  const THREAD_GROUP_WIDTH: nat := 32
  /** Side of the square shadow map. */
  const SHADOW_MAP_WIDTH: nat := 2048
  /** The light buffer holds a diffuse and a specular spherical-Gaussian light of twelve 32-bit words each. */
  const SG_LIGHT_COUNT: nat := 2
  const SG_LIGHT_STRIDE: nat := 48
  /** The "no material yet" value a draw loop starts from: the largest 32-bit unsigned integer. */
  const NO_MATERIAL: nat := WORD32 - 1

  /** A mesh of a model: its index range and vertex offsets in bytes, and its material. */
  datatype Mesh = Mesh(indexCount: nat, indexDataByteOffset: nat, vertexDataByteOffset: nat,
                       vertexDataByteOffsetDepth: nat, materialIndex: nat)

  /** A model: its meshes, and the vertex strides of its full and depth-only vertex streams. */
  datatype Model = Model(meshes: seq<Mesh>, vertexStride: nat, vertexStrideDepth: nat)

  /** A scene: the opaque model and the alpha-cutout model. */
  datatype Scene = Scene(model: Model, modelCutout: Model)

  /** The renderers of ModelViewer draw depth from a depth-only vertex stream; MyRenderer's models have none. */
  predicate UsesDepthStream(v: Variant)
  {
    v != MyRenderer
  }

  function VertexOffset(mesh: Mesh, depthStream: bool): nat
  {
    if depthStream then mesh.vertexDataByteOffsetDepth else mesh.vertexDataByteOffset
  }

  function DepthStride(v: Variant, model: Model): nat
  {
    if UsesDepthStream(v) then model.vertexStrideDepth else model.vertexStride
  }

  /** What the draw loops assert of every mesh: whole triangles of 16-bit indices, and whole vertices. */
  predicate MeshOk(mesh: Mesh, stride: nat, depthStream: bool)
  {
    && mesh.indexCount % 3 == 0
    && mesh.indexDataByteOffset % 6 == 0
    && stride > 0 && VertexOffset(mesh, depthStream) % stride == 0
  }

  predicate MeshesOk(meshes: seq<Mesh>, stride: nat, depthStream: bool)
  {
    && (|meshes| > 0 ==> stride > 0)
    && forall j :: 0 <= j < |meshes| ==> MeshOk(meshes[j], stride, depthStream)
  }

  /** What every draw of a frame asserts of the scene. */
  predicate SceneOk(v: Variant, scene: Scene)
  {
    && MeshesOk(scene.model.meshes, scene.model.vertexStride, false)
    && MeshesOk(scene.model.meshes, DepthStride(v, scene.model), UsesDepthStream(v))
    && MeshesOk(scene.modelCutout.meshes, scene.modelCutout.vertexStride, false)
  }

  /** The indexed draw of one mesh: byte offsets become a 16-bit index position and a vertex number. */
  function MeshDraw(mesh: Mesh, stride: nat, depthStream: bool): Command
    requires stride > 0
  {
    DrawIndexed(mesh.indexCount, mesh.indexDataByteOffset / 2, VertexOffset(mesh, depthStream) / stride)
  }

  /** Under the draw loop's asserts the divisions are exact: the draw starts at a triangle and at a vertex. */
  lemma DrawArgsExact(mesh: Mesh, stride: nat, depthStream: bool)
    requires MeshOk(mesh, stride, depthStream)
    ensures var d := MeshDraw(mesh, stride, depthStream);
      && d.indexCount % 3 == 0
      && d.startIndex * 2 == mesh.indexDataByteOffset && d.startIndex % 3 == 0
      && d.baseVertex * stride == VertexOffset(mesh, depthStream)
  {
    var off := mesh.indexDataByteOffset;
    assert off == 6 * (off / 6) + off % 6;
    assert off / 2 == 3 * (off / 6);
    var vo := VertexOffset(mesh, depthStream);
    assert vo == stride * (vo / stride) + vo % stride;
  }

  /** Binding a material's textures: a descriptor table in MyRenderer, srvCount dynamic descriptors otherwise. */
  function MaterialBind(v: Variant, material: nat, srvCount: nat): (c: Command)
    ensures IsBind(c) && c.material == material
  {
    if v == MyRenderer then SetMaterialTable(material) else SetMaterialDescriptors(material, srvCount)
  }

  /** The material bound before mesh j is drawn, as the loop remembers it. */
  function PrevMaterial(meshes: seq<Mesh>, j: nat): nat
    requires j <= |meshes|
  {
    if j == 0 then NO_MATERIAL else meshes[j - 1].materialIndex
  }

  /** What the draw loop issues for mesh j: a bind when its material differs from the last one, then the draw. */
  function MeshStep(v: Variant, meshes: seq<Mesh>, stride: nat, srvCount: nat, j: nat): seq<Command>
    requires j < |meshes| && stride > 0
  {
    (if meshes[j].materialIndex != PrevMaterial(meshes, j) then [MaterialBind(v, meshes[j].materialIndex, srvCount)] else [])
    + [MeshDraw(meshes[j], stride, false)]
  }

  /** The draw loop's commands for the first n meshes. */
  function MeshLog(v: Variant, meshes: seq<Mesh>, stride: nat, srvCount: nat, n: nat): seq<Command>
    requires n <= |meshes| && (n == 0 || stride > 0)
  {
    if n == 0 then [] else MeshLog(v, meshes, stride, srvCount, n - 1) + MeshStep(v, meshes, stride, srvCount, n - 1)
  }

  /** The depth-only draw loop's commands for the first n meshes. */
  function DepthLog(meshes: seq<Mesh>, stride: nat, depthStream: bool, n: nat): seq<Command>
    requires n <= |meshes| && (n == 0 || stride > 0)
  {
    if n == 0 then [] else DepthLog(meshes, stride, depthStream, n - 1) + [MeshDraw(meshes[n - 1], stride, depthStream)]
  }

  /** Draw: the model's full vertex and index buffers, then the draw loop over all its meshes. */
  function DrawLog(v: Variant, model: Model, kind: ModelKind, srvCount: nat): seq<Command>
    requires MeshesOk(model.meshes, model.vertexStride, false)
  {
    [SetIndexBuffer(ModelBuffer(kind, false)), SetVertexBuffer(ModelBuffer(kind, false))]
    + MeshLog(v, model.meshes, model.vertexStride, srvCount, |model.meshes|)
  }

  /** DrawDepth: the opaque model's depth-only buffers (its full ones in MyRenderer), then one draw per mesh. */
  function DepthDrawLog(v: Variant, model: Model): seq<Command>
    requires MeshesOk(model.meshes, DepthStride(v, model), UsesDepthStream(v))
  {
    [SetIndexBuffer(ModelBuffer(MainModel, UsesDepthStream(v))), SetVertexBuffer(ModelBuffer(MainModel, UsesDepthStream(v)))]
    + DepthLog(model.meshes, DepthStride(v, model), UsesDepthStream(v), |model.meshes|)
  }

  // ----- What the draw loops issue -----

  lemma {:induction false} MeshLogCalls(v: Variant, meshes: seq<Mesh>, stride: nat, srvCount: nat, n: nat)
    requires n <= |meshes| && (n == 0 || stride > 0) && srvCount <= MODEL_SRV_COUNT
    ensures forall c :: c in MeshLog(v, meshes, stride, srvCount, n) ==> DrawCall(c)
  {
    if n > 0 {
      MeshLogCalls(v, meshes, stride, srvCount, n - 1);
    }
  }

  lemma {:induction false} DepthLogCalls(meshes: seq<Mesh>, stride: nat, depthStream: bool, n: nat)
    requires n <= |meshes| && (n == 0 || stride > 0)
    ensures forall c :: c in DepthLog(meshes, stride, depthStream, n) ==> c.DrawIndexed?
  {
    if n > 0 {
      DepthLogCalls(meshes, stride, depthStream, n - 1);
    }
  }

  /** Draw issues only buffer bindings, material binds of at most MODEL_SRV_COUNT textures, and draws. */
  lemma DrawLogCalls(v: Variant, model: Model, kind: ModelKind, srvCount: nat)
    requires MeshesOk(model.meshes, model.vertexStride, false) && srvCount <= MODEL_SRV_COUNT
    ensures forall c :: c in DrawLog(v, model, kind, srvCount) ==> DrawCall(c)
  {
    MeshLogCalls(v, model.meshes, model.vertexStride, srvCount, |model.meshes|);
  }

  /** DrawDepth issues only buffer bindings and draws. */
  lemma DepthDrawLogCalls(v: Variant, model: Model)
    requires MeshesOk(model.meshes, DepthStride(v, model), UsesDepthStream(v))
    ensures forall c :: c in DepthDrawLog(v, model) ==> DrawCall(c) && !IsBind(c)
  {
    DepthLogCalls(model.meshes, DepthStride(v, model), UsesDepthStream(v), |model.meshes|);
  }

  /** The depth-only loop draws every mesh once, in order, from the stream it was given. */
  lemma {:induction false} DepthLogDraws(meshes: seq<Mesh>, stride: nat, depthStream: bool, n: nat)
    requires n <= |meshes| && (n == 0 || stride > 0)
    ensures var log := DepthLog(meshes, stride, depthStream, n);
      |log| == n && forall j :: 0 <= j < n ==> log[j] == MeshDraw(meshes[j], stride, depthStream)
  {
    if n > 0 {
      var prev := DepthLog(meshes, stride, depthStream, n - 1);
      var log := DepthLog(meshes, stride, depthStream, n);
      DepthLogDraws(meshes, stride, depthStream, n - 1);
      forall j | 0 <= j < n
        ensures log[j] == MeshDraw(meshes[j], stride, depthStream)
      {
        if j < n - 1 {
          assert log[j] == prev[j];
        }
      }
    }
  }

  /** One step of the draw loop holds one draw, and one bind exactly when the material changes. */
  lemma MeshStepKinds(v: Variant, meshes: seq<Mesh>, stride: nat, srvCount: nat, j: nat)
    requires j < |meshes| && stride > 0
    ensures Filter(MeshStep(v, meshes, stride, srvCount, j), Draws) == [MeshDraw(meshes[j], stride, false)]
    ensures |Filter(MeshStep(v, meshes, stride, srvCount, j), Binds)|
      == if meshes[j].materialIndex != PrevMaterial(meshes, j) then 1 else 0
  {
    var draw := MeshDraw(meshes[j], stride, false);
    FilterOne(draw, Draws);
    FilterOne(draw, Binds);
    if meshes[j].materialIndex != PrevMaterial(meshes, j) {
      var bind := MaterialBind(v, meshes[j].materialIndex, srvCount);
      FilterOne(bind, Draws);
      FilterOne(bind, Binds);
      FilterAppend([bind], [draw], Draws);
      FilterAppend([bind], [draw], Binds);
    } else {
      assert MeshStep(v, meshes, stride, srvCount, j) == [draw];
    }
  }

  /**
   * The material-binding loop makes the same draws as the depth-only loop over the
   * full vertex stream: one per mesh, in order, whatever binds come between them.
   */
  lemma {:induction false} MeshLogDraws(v: Variant, meshes: seq<Mesh>, stride: nat, srvCount: nat, n: nat)
    requires n <= |meshes| && (n == 0 || stride > 0)
    ensures Filter(MeshLog(v, meshes, stride, srvCount, n), Draws) == DepthLog(meshes, stride, false, n)
  {
    if n > 0 {
      var j := n - 1;
      MeshLogDraws(v, meshes, stride, srvCount, j);
      MeshStepKinds(v, meshes, stride, srvCount, j);
      FilterAppend(MeshLog(v, meshes, stride, srvCount, j), MeshStep(v, meshes, stride, srvCount, j), Draws);
    }
  }

  /** One step of the draw loop leaves bound the material it binds, if it binds one. */
  lemma MeshStepBound(v: Variant, meshes: seq<Mesh>, stride: nat, srvCount: nat, j: nat)
    requires j < |meshes| && stride > 0
    ensures LastBound(MeshStep(v, meshes, stride, srvCount, j))
      == if meshes[j].materialIndex != PrevMaterial(meshes, j) then Some(meshes[j].materialIndex) else None
  {
    var draw := MeshDraw(meshes[j], stride, false);
    assert LastBound([draw]) == None by {
      assert [draw][..0] == [];
    }
    if meshes[j].materialIndex != PrevMaterial(meshes, j) {
      var bind := MaterialBind(v, meshes[j].materialIndex, srvCount);
      LastBoundAppend([bind], [draw]);
      assert [bind][..0] == [];
    } else {
      assert MeshStep(v, meshes, stride, srvCount, j) == [draw];
    }
  }

  /**
   * When mesh j is drawn, the material bound last is mesh j's own — provided the
   * first mesh's material is not the loop's starting value, which would skip its bind.
   */
  lemma {:induction false} BoundAtEachDraw(v: Variant, meshes: seq<Mesh>, stride: nat, srvCount: nat, j: nat)
    requires j < |meshes| && stride > 0
    requires meshes[0].materialIndex != NO_MATERIAL
    ensures LastBound(MeshLog(v, meshes, stride, srvCount, j + 1)) == Some(meshes[j].materialIndex)
  {
    MeshStepBound(v, meshes, stride, srvCount, j);
    LastBoundAppend(MeshLog(v, meshes, stride, srvCount, j), MeshStep(v, meshes, stride, srvCount, j));
    if j > 0 && meshes[j].materialIndex == meshes[j - 1].materialIndex {
      BoundAtEachDraw(v, meshes, stride, srvCount, j - 1);
    }
  }

  /** The number of runs of equal materials among the first n meshes: the meshes that start a run. */
  function MaterialRuns(meshes: seq<Mesh>, n: nat): nat
    requires n <= |meshes|
  {
    if n == 0 then 0
    else MaterialRuns(meshes, n - 1)
         + (if n == 1 || meshes[n - 1].materialIndex != meshes[n - 2].materialIndex then 1 else 0)
  }

  /** Material binds are elided within a run of equal materials: the loop binds once per run. */
  lemma {:induction false} BindsPerRun(v: Variant, meshes: seq<Mesh>, stride: nat, srvCount: nat, n: nat)
    requires 0 < n <= |meshes| && stride > 0
    requires meshes[0].materialIndex != NO_MATERIAL
    ensures |Filter(MeshLog(v, meshes, stride, srvCount, n), Binds)| == MaterialRuns(meshes, n)
  {
    var j := n - 1;
    MeshStepKinds(v, meshes, stride, srvCount, j);
    FilterAppend(MeshLog(v, meshes, stride, srvCount, j), MeshStep(v, meshes, stride, srvCount, j), Binds);
    if j > 0 {
      BindsPerRun(v, meshes, stride, srvCount, j);
    }
  }

  // ----- The renderer's buffers -----

  /** How a buffer is created: a square-or-not 2D texture with its format, or a structured buffer. */
  datatype Extent = Texture2D(width: nat, height: nat, format: Format) | Structured(count: nat, elementSize: nat)

  /** The six buffers the renderer creates. */
  const FRAME_BUFFERS: set<Resource> := {ShadowMap, RsmDepth, RsmNormal, RsmDiffuse, RsmSpecular, SgLightBuffer}

  /** The buffers as Create (Initialize in MyRenderer) makes them. */
  function CreatedBuffers(): (m: map<Resource, Extent>)
    ensures m.Keys == FRAME_BUFFERS
  {
    map[ShadowMap := Texture2D(SHADOW_MAP_WIDTH, SHADOW_MAP_WIDTH, D32_FLOAT),
        RsmDepth := Texture2D(RSM_WIDTH, RSM_WIDTH, D32_FLOAT),
        RsmNormal := Texture2D(RSM_WIDTH, RSM_WIDTH, R16G16_SNORM),
        RsmDiffuse := Texture2D(RSM_WIDTH, RSM_WIDTH, R10G10B10A2_UNORM),
        RsmSpecular := Texture2D(RSM_WIDTH, RSM_WIDTH, R8G8B8A8_UNORM),
        SgLightBuffer := Structured(SG_LIGHT_COUNT, SG_LIGHT_STRIDE)]
  }

  /** Every buffer the VSGL pass reads is a square RSM_WIDTH texture, whose side the thread groups divide. */
  lemma CreatedRsmSquare()
    ensures forall r :: r in {RsmDepth, RsmNormal, RsmDiffuse, RsmSpecular} ==>
      r in CreatedBuffers() && CreatedBuffers()[r].Texture2D?
      && CreatedBuffers()[r].width == RSM_WIDTH && CreatedBuffers()[r].height == RSM_WIDTH
    ensures RSM_WIDTH % THREAD_GROUP_WIDTH == 0
  {
  }

  // ----- The frame, pass by pass -----

  /** The pipeline a lighting draw uses: the hemispherical-convolution pipelines when that is on (not in MyRenderer). */
  function LightingPsoOf(v: Variant, hsg: bool, cutout: bool): Pipeline
  {
    if v != MyRenderer && hsg then (if cutout then LightingHsgCutoutPso else LightingHsgPso)
    else (if cutout then LightingCutoutPso else LightingPso)
  }

  /** The cutout model is drawn, with its own pipeline, only when it has meshes. */
  function CutoutLog(v: Variant, cutout: Model, pso: Pipeline, srvCount: nat): seq<Command>
    requires MeshesOk(cutout.meshes, cutout.vertexStride, false)
  {
    if |cutout.meshes| > 0 then [SetPipelineState(pso)] + DrawLog(v, cutout, CutoutModel, srvCount) else []
  }

  /** The eight resources a frame moves between states: the renderer's buffers and the scene's depth and colour. */
  const FRAME_TARGETS: set<Resource> := FRAME_BUFFERS + {SceneDepth, SceneColor}

  /** Render's opening transitions: every target to the state it is first written in. */
  function InitTransitions(): seq<Command>
  {
    [Transition(RsmDepth, DepthWrite), Transition(RsmNormal, RenderTarget),
     Transition(RsmDiffuse, RenderTarget), Transition(RsmSpecular, RenderTarget),
     Transition(ShadowMap, DepthWrite), Transition(SgLightBuffer, UnorderedAccess),
     Transition(SceneDepth, DepthWrite), Transition(SceneColor, RenderTarget)]
  }

  /** Render's opening clears: every target but the RSM normal buffer. */
  function InitClears(): seq<Command>
  {
    RsmClears() + TargetClears()
  }

  /** The RSM targets Render clears: depth, diffuse and specular (the normal target is left as it is). */
  function RsmClears(): seq<Command>
  {
    [ClearDepth(RsmDepth), ClearColor(RsmDiffuse), ClearColor(RsmSpecular)]
  }

  /** The other targets Render clears: the shadow map and the scene's depth and colour. */
  function TargetClears(): seq<Command>
  {
    [ClearDepth(ShadowMap), ClearDepth(SceneDepth), ClearColor(SceneColor)]
  }

  /** Render's opening: the eight targets move to the states they are written in, then six are cleared. */
  function InitLog(): seq<Command>
  {
    InitTransitions() + InitClears()
  }

  /** A model pass's draws: the opaque model with its pipeline already set, then the cutout model if it has meshes. */
  function ModelDraws(v: Variant, scene: Scene, cutoutPso: Pipeline, srvCount: nat): seq<Command>
    requires SceneOk(v, scene)
  {
    DrawLog(v, scene.model, MainModel, srvCount) + CutoutLog(v, scene.modelCutout, cutoutPso, srvCount)
  }

  /** A depth-only pass's draws: the opaque model's depth stream, then the cutout model if it has meshes. */
  function DepthDraws(v: Variant, scene: Scene, cutoutPso: Pipeline): seq<Command>
    requires SceneOk(v, scene)
  {
    DepthDrawLog(v, scene.model) + CutoutLog(v, scene.modelCutout, cutoutPso, CUTOUT_SRV_COUNT)
  }

  /** The RSM pass writes normal, diffuse and specular, with the RSM depth buffer. */
  function RsmSetup(): seq<Command>
  {
    [SetRootSignature(RsmRootSig), SetRenderTargets([RsmNormal, RsmDiffuse, RsmSpecular], RsmDepth, false),
     SetPipelineState(RsmPso)]
  }

  /** The RSM pass ends by starting split transitions of its four targets to compute reads. */
  function RsmRelease(): seq<Command>
  {
    [BeginTransition(RsmDepth, NonPixelShaderResource), BeginTransition(RsmNormal, NonPixelShaderResource),
     BeginTransition(RsmDiffuse, NonPixelShaderResource), BeginTransition(RsmSpecular, NonPixelShaderResource)]
  }

  /** The reflective shadow map pass. */
  function RsmLog(v: Variant, scene: Scene): seq<Command>
    requires SceneOk(v, scene)
  {
    RsmSetup() + ModelDraws(v, scene, RsmCutoutPso, MODEL_SRV_COUNT) + RsmRelease()
  }

  /** The shadow map pass writes depth only, into the shadow map. */
  function ShadowSetup(): seq<Command>
  {
    [SetRootSignature(DepthRootSig), SetRenderTargets([], ShadowMap, false), SetPipelineState(ShadowMapPso)]
  }

  /** The shadow map pass ends by starting a split transition of the shadow map to pixel-shader reads. */
  function ShadowRelease(): seq<Command>
  {
    [BeginTransition(ShadowMap, PixelShaderResource)]
  }

  /** The shadow map pass: depth only from the light. */
  function ShadowLog(v: Variant, scene: Scene): seq<Command>
    requires SceneOk(v, scene)
  {
    ShadowSetup() + DepthDraws(v, scene, ShadowMapCutoutPso) + ShadowRelease()
  }

  /** VSGL generation completes the RSM's split transitions... */
  function VsglTransitions(): seq<Command>
  {
    [Transition(RsmDepth, NonPixelShaderResource), Transition(RsmNormal, NonPixelShaderResource),
     Transition(RsmDiffuse, NonPixelShaderResource), Transition(RsmSpecular, NonPixelShaderResource)]
  }

  /** ...binds the compute root signature and the light buffer as the UAV written... */
  function VsglBind(): seq<Command>
  {
    [SetRootSignature(VsglRootSig), SetBufferUav(SgLightBuffer)]
  }

  /** ...sets up the diffuse light: RSM depth, normal and diffuse in registers 0 to 2, and constant 0... */
  function DiffuseSettings(): seq<Command>
  {
    [SetDynamicDescriptors(0, [RsmDepth, RsmNormal, RsmDiffuse]), SetConstants(0), SetPipelineState(VsglDiffusePso)]
  }

  /** ...then the specular light: the RSM specular buffer in register 2 instead, and constant 1... */
  function SpecularSettings(): seq<Command>
  {
    [SetDynamicDescriptors(2, [RsmSpecular]), SetConstants(1), SetPipelineState(VsglSpecularPso)]
  }

  /** ...each generated by a single thread group. */
  const VSGL_DISPATCH: Command := Dispatch(1, 1, 1)

  /** VSGL generation: two compute dispatches turn the RSM into the diffuse and specular lights. */
  function VsglLog(): seq<Command>
  {
    (VsglTransitions() + VsglBind()) + (DiffuseSettings() + [VSGL_DISPATCH]) + (SpecularSettings() + [VSGL_DISPATCH])
  }

  /** The depth pre-pass writes the scene depth. */
  function DepthSetup(): seq<Command>
  {
    [SetRootSignature(DepthRootSig), SetRenderTargets([], SceneDepth, false), SetPipelineState(DepthPso)]
  }

  /** The depth pre-pass from the camera. */
  function DepthPassLog(v: Variant, scene: Scene): seq<Command>
    requires SceneOk(v, scene)
  {
    DepthSetup() + DepthDraws(v, scene, DepthCutoutPso)
  }

  /** How the lighting pass binds the shadow map after the material registers. */
  function ShadowBind(v: Variant): Command
  {
    if v == MyRenderer then SetLightingTable else SetDynamicDescriptors(MODEL_SRV_COUNT, [ShadowMap])
  }

  /** Lighting reads the scene depth, the shadow map and the light buffer... */
  function LightingTransitions(): seq<Command>
  {
    [Transition(SceneDepth, DepthRead), Transition(ShadowMap, PixelShaderResource),
     Transition(SgLightBuffer, VertexAndConstantBuffer)]
  }

  /** ...binding the lights as constants and the shadow map after the materials, against read-only depth. */
  function LightingSetup(v: Variant, hsg: bool): seq<Command>
  {
    [SetRootSignature(LightingRootSig), SetBufferCbv(SgLightBuffer)]
    + [ShadowBind(v), SetRenderTargets([SceneColor], SceneDepth, true), SetPipelineState(LightingPsoOf(v, hsg, false))]
  }

  /** The lighting pass: shading with the shadow map and the VSGL lights. */
  function LightingLog(v: Variant, scene: Scene, hsg: bool): seq<Command>
    requires SceneOk(v, scene)
  {
    LightingTransitions() + LightingSetup(v, hsg) + ModelDraws(v, scene, LightingPsoOf(v, hsg, true), MODEL_SRV_COUNT)
  }

  /** A whole frame. */
  function FrameLog(v: Variant, scene: Scene, hsg: bool): seq<Command>
    requires SceneOk(v, scene)
  {
    InitLog() + RsmLog(v, scene) + ShadowLog(v, scene) + VsglLog() + DepthPassLog(v, scene) + LightingLog(v, scene, hsg)
  }
}

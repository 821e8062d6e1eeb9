// The frame renderer as it runs: a Renderer owns its six buffers and records
// each pass on a graphics context, one context call at a time. Every method is
// proved to record exactly the log that FrameRenderer defines for it, and to
// leave the context's resource states where replaying that log leads.
module FrameRecorder {
  import opened PixelFormats
  import opened GpuContext
  import opened CommandReplay
  import opened FrameRenderer
  import opened FrameChecks

  /**
   * The context's usage and pending states are those that its commands from
   * position n0 on lead to, starting from the states u0 and p0.
   */
  ghost predicate Tracks(ctx: GraphicsContext, u0: map<Resource, ResourceState>, p0: map<Resource, ResourceState>, n0: nat)
    reads ctx
  {
    && n0 <= |ctx.commands|
    && ctx.usage == StatesAfter(u0, ctx.commands[n0..])
    && ctx.transitioning == PendingAfter(p0, ctx.commands[n0..])
  }

  /** Records c through the context call that issues it: a transition, the start of a split transition, or a plain call. */
  method Record(ctx: GraphicsContext, c: Command, ghost u0: map<Resource, ResourceState>,
                ghost p0: map<Resource, ResourceState>, ghost n0: nat)
    requires Tracks(ctx, u0, p0, n0)
    modifies ctx`commands, ctx`usage, ctx`transitioning
    ensures ctx.commands == old(ctx.commands) + [c] && Tracks(ctx, u0, p0, n0)
  {
    ghost var done := ctx.commands[n0..];
    match c {
      case Transition(r, s) => ctx.TransitionResource(r, s);
      case BeginTransition(r, s) => ctx.BeginResourceTransition(r, s);
      case _ => ctx.Issue(c);
    }
    assert ctx.commands[n0..] == done + [c];
    ReplaySplit(u0, p0, done, [c]);
    assert [c][1..] == [];
  }

  /** Plain commands appended to a tracked log leave it tracked. */
  lemma PlainTracked(ctx: GraphicsContext, u0: map<Resource, ResourceState>, p0: map<Resource, ResourceState>, n0: nat,
                     head: seq<Command>, more: seq<Command>)
    requires n0 <= |head| && ctx.commands == head + more
    requires ctx.usage == StatesAfter(u0, head[n0..]) && ctx.transitioning == PendingAfter(p0, head[n0..])
    requires forall c :: c in more ==> DrawSide(c)
    ensures Tracks(ctx, u0, p0, n0)
  {
    assert ctx.commands[n0..] == head[n0..] + more;
    ReplaySplit(u0, p0, head[n0..], more);
    PlainKeepsStates(StatesAfter(u0, head[n0..]), PendingAfter(p0, head[n0..]), more);
  }

  // Recording commands one call at a time appends them in order.

  lemma Appended3(c0: seq<Command>, a: Command, b: Command, c: Command)
    ensures c0 + [a] + [b] + [c] == c0 + [a, b, c]
  {
  }

  lemma Appended4(c0: seq<Command>, a: Command, b: Command, c: Command, d: Command)
    ensures c0 + [a] + [b] + [c] + [d] == c0 + [a, b, c, d]
  {
  }

  lemma Appended5(c0: seq<Command>, a: Command, b: Command, c: Command, d: Command, e: Command)
    ensures c0 + [a] + [b] + [c] + [d] + [e] == c0 + [a, b, c, d, e]
  {
  }

  lemma Appended6(c0: seq<Command>, a: Command, b: Command, c: Command, d: Command, e: Command, f: Command)
    ensures c0 + [a] + [b] + [c] + [d] + [e] + [f] == c0 + [a, b, c, d, e, f]
  {
  }

  lemma Appended8(c0: seq<Command>, a: Command, b: Command, c: Command, d: Command, e: Command, f: Command,
                  g: Command, h: Command)
    ensures c0 + [a] + [b] + [c] + [d] + [e] + [f] + [g] + [h] == c0 + [a, b, c, d, e, f, g, h]
  {
  }

  lemma Chained(c0: seq<Command>, a: seq<Command>, b: seq<Command>, c: seq<Command>)
    ensures c0 + a + b + c == c0 + (a + b + c) == c0 + (a + (b + c))
  {
  }

  lemma Chained2(c0: seq<Command>, a: seq<Command>, b: seq<Command>)
    ensures c0 + a + b == c0 + (a + b)
  {
  }

  /** The VSGL pass's pieces, call by call. */
  lemma VsglCalls()
    ensures VsglTransitions() + VsglBind() ==
      [Transition(RsmDepth, NonPixelShaderResource), Transition(RsmNormal, NonPixelShaderResource),
       Transition(RsmDiffuse, NonPixelShaderResource), Transition(RsmSpecular, NonPixelShaderResource),
       SetRootSignature(VsglRootSig), SetBufferUav(SgLightBuffer)]
    ensures DiffuseSettings() + [VSGL_DISPATCH] ==
      [SetDynamicDescriptors(0, [RsmDepth, RsmNormal, RsmDiffuse]), SetConstants(0), SetPipelineState(VsglDiffusePso), VSGL_DISPATCH]
    ensures SpecularSettings() + [VSGL_DISPATCH] ==
      [SetDynamicDescriptors(2, [RsmSpecular]), SetConstants(1), SetPipelineState(VsglSpecularPso), VSGL_DISPATCH]
  {
  }

  /** The lighting pass's bindings, call by call. */
  lemma LightingCalls(v: Variant, hsg: bool)
    ensures LightingSetup(v, hsg) ==
      [SetRootSignature(LightingRootSig), SetBufferCbv(SgLightBuffer), ShadowBind(v),
       SetRenderTargets([SceneColor], SceneDepth, true), SetPipelineState(LightingPsoOf(v, hsg, false))]
  {
  }

  /** The VSGL pass's asserts: the four RSM buffers are square textures of side RSM_WIDTH. */
  predicate RsmSized(buffers: map<Resource, Extent>)
  {
    forall r :: r in {RsmDepth, RsmNormal, RsmDiffuse, RsmSpecular} ==>
      r in buffers && buffers[r].Texture2D? && buffers[r].width == RSM_WIDTH && buffers[r].height == RSM_WIDTH
  }

  /** Create sizes the RSM as the VSGL pass expects; after Clear none of it is left, so a frame must not follow. */
  lemma CreateThenClear(buffers: map<Resource, Extent>)
    ensures RsmSized(CreatedBuffers())
    ensures !RsmSized(buffers - FRAME_BUFFERS)
  {
    CreatedRsmSquare();
    assert RsmDepth !in buffers - FRAME_BUFFERS;
  }

  class Renderer {
    /** Which of the three renderers this is. */
    const variant: Variant
    /** The renderer's buffers that exist, and how each was created. */
    var buffers: map<Resource, Extent>

    constructor (v: Variant)
      ensures variant == v && buffers == map[]
    {
      variant := v;
      buffers := map[];
    }

    /** Create (Initialize in MyRenderer): the shadow map, the four RSM buffers and the light buffer. */
    method Create()
      modifies this`buffers
      ensures buffers == CreatedBuffers() && RsmSized(buffers)
    {
      buffers := map[ShadowMap := Texture2D(SHADOW_MAP_WIDTH, SHADOW_MAP_WIDTH, D32_FLOAT)];
      buffers := buffers[RsmDepth := Texture2D(RSM_WIDTH, RSM_WIDTH, D32_FLOAT)];
      buffers := buffers[RsmNormal := Texture2D(RSM_WIDTH, RSM_WIDTH, R16G16_SNORM)];
      buffers := buffers[RsmDiffuse := Texture2D(RSM_WIDTH, RSM_WIDTH, R10G10B10A2_UNORM)];
      buffers := buffers[RsmSpecular := Texture2D(RSM_WIDTH, RSM_WIDTH, R8G8B8A8_UNORM)];
      buffers := buffers[SgLightBuffer := Structured(SG_LIGHT_COUNT, SG_LIGHT_STRIDE)];
      CreateThenClear(buffers);
    }

    /** Clear (Shutdown in MyRenderer; the MiniEngine renderer has neither): the six buffers are destroyed. */
    method Clear()
      requires variant != MiniEngineViewer
      modifies this`buffers
      ensures buffers == old(buffers) - FRAME_BUFFERS && !RsmSized(buffers)
    {
      buffers := buffers - {ShadowMap, RsmDepth, RsmNormal, RsmDiffuse, RsmSpecular, SgLightBuffer};
      CreateThenClear(old(buffers));
    }

    /**
     * Draw: the model's buffers, then per mesh a material bind when its material
     * differs from the previous mesh's, and the mesh's indexed draw.
     */
    method Draw(ctx: GraphicsContext, model: Model, kind: ModelKind, srvCount: nat)
      requires MeshesOk(model.meshes, model.vertexStride, false)
      modifies ctx`commands
      ensures ctx.commands == old(ctx.commands) + DrawLog(variant, model, kind, srvCount)
    {
      ctx.Issue(SetIndexBuffer(ModelBuffer(kind, false)));
      ctx.Issue(SetVertexBuffer(ModelBuffer(kind, false)));
      ghost var head := ctx.commands;
      var materialIndex := NO_MATERIAL;
      var stride := model.vertexStride;
      var i := 0;
      while i < |model.meshes|
        invariant 0 <= i <= |model.meshes|
        invariant materialIndex == PrevMaterial(model.meshes, i)
        invariant ctx.commands == head + MeshLog(variant, model.meshes, stride, srvCount, i)
      {
        var mesh := model.meshes[i];
        if materialIndex != mesh.materialIndex {
          materialIndex := mesh.materialIndex;
          ctx.Issue(MaterialBind(variant, materialIndex, srvCount));
        }
        ctx.Issue(DrawIndexed(mesh.indexCount, mesh.indexDataByteOffset / 2, mesh.vertexDataByteOffset / stride));
        i := i + 1;
      }
    }

    /** DrawDepth: the opaque model's depth-stream buffers (full ones in MyRenderer), then one draw per mesh. */
    method DrawDepth(ctx: GraphicsContext, model: Model)
      requires MeshesOk(model.meshes, DepthStride(variant, model), UsesDepthStream(variant))
      modifies ctx`commands
      ensures ctx.commands == old(ctx.commands) + DepthDrawLog(variant, model)
    {
      var depthStream := UsesDepthStream(variant);
      ctx.Issue(SetIndexBuffer(ModelBuffer(MainModel, depthStream)));
      ctx.Issue(SetVertexBuffer(ModelBuffer(MainModel, depthStream)));
      ghost var head := ctx.commands;
      var stride := DepthStride(variant, model);
      var i := 0;
      while i < |model.meshes|
        invariant 0 <= i <= |model.meshes|
        invariant ctx.commands == head + DepthLog(model.meshes, stride, depthStream, i)
      {
        var mesh := model.meshes[i];
        var offset := if depthStream then mesh.vertexDataByteOffsetDepth else mesh.vertexDataByteOffset;
        ctx.Issue(DrawIndexed(mesh.indexCount, mesh.indexDataByteOffset / 2, offset / stride));
        i := i + 1;
      }
    }

    /** The opaque model with the main pipeline already set, then the cutout model, if it has meshes, with its own. */
    method DrawModels(ctx: GraphicsContext, scene: Scene, cutoutPso: Pipeline, srvCount: nat,
                      ghost u0: map<Resource, ResourceState>, ghost p0: map<Resource, ResourceState>, ghost n0: nat)
      requires SceneOk(variant, scene) && srvCount <= MODEL_SRV_COUNT && Tracks(ctx, u0, p0, n0)
      modifies ctx`commands
      ensures ctx.commands == old(ctx.commands) + ModelDraws(variant, scene, cutoutPso, srvCount) && Tracks(ctx, u0, p0, n0)
    {
      ghost var head := ctx.commands;
      Draw(ctx, scene.model, MainModel, srvCount);
      if |scene.modelCutout.meshes| > 0 {
        ctx.Issue(SetPipelineState(cutoutPso));
        Draw(ctx, scene.modelCutout, CutoutModel, srvCount);
      }
      ModelDrawsSide(variant, scene, cutoutPso, srvCount);
      PlainTracked(ctx, u0, p0, n0, head, ModelDraws(variant, scene, cutoutPso, srvCount));
    }

    /** The depth stream of the opaque model, then the cutout model, if it has meshes, with its own pipeline. */
    method DrawDepthModels(ctx: GraphicsContext, scene: Scene, cutoutPso: Pipeline,
                           ghost u0: map<Resource, ResourceState>, ghost p0: map<Resource, ResourceState>, ghost n0: nat)
      requires SceneOk(variant, scene) && Tracks(ctx, u0, p0, n0)
      modifies ctx`commands
      ensures ctx.commands == old(ctx.commands) + DepthDraws(variant, scene, cutoutPso) && Tracks(ctx, u0, p0, n0)
    {
      ghost var head := ctx.commands;
      DrawDepth(ctx, scene.model);
      if |scene.modelCutout.meshes| > 0 {
        ctx.Issue(SetPipelineState(cutoutPso));
        Draw(ctx, scene.modelCutout, CutoutModel, CUTOUT_SRV_COUNT);
      }
      DepthDrawsSide(variant, scene, cutoutPso);
      PlainTracked(ctx, u0, p0, n0, head, DepthDraws(variant, scene, cutoutPso));
    }

    /** ReflectiveShadowMapPass: the RSM targets are written, then released to compute reads by split transitions. */
    method ReflectiveShadowMapPass(ctx: GraphicsContext, scene: Scene, ghost u0: map<Resource, ResourceState>,
                                   ghost p0: map<Resource, ResourceState>, ghost n0: nat)
      requires SceneOk(variant, scene) && Tracks(ctx, u0, p0, n0)
      modifies ctx`commands, ctx`usage, ctx`transitioning
      ensures ctx.commands == old(ctx.commands) + RsmLog(variant, scene) && Tracks(ctx, u0, p0, n0)
    {
      ghost var c0 := ctx.commands;
      Record(ctx, SetRootSignature(RsmRootSig), u0, p0, n0);
      Record(ctx, SetRenderTargets([RsmNormal, RsmDiffuse, RsmSpecular], RsmDepth, false), u0, p0, n0);
      Record(ctx, SetPipelineState(RsmPso), u0, p0, n0);
      ghost var c1 := ctx.commands;
      DrawModels(ctx, scene, RsmCutoutPso, MODEL_SRV_COUNT, u0, p0, n0);
      ghost var c2 := ctx.commands;
      Record(ctx, BeginTransition(RsmDepth, NonPixelShaderResource), u0, p0, n0);
      Record(ctx, BeginTransition(RsmNormal, NonPixelShaderResource), u0, p0, n0);
      Record(ctx, BeginTransition(RsmDiffuse, NonPixelShaderResource), u0, p0, n0);
      Record(ctx, BeginTransition(RsmSpecular, NonPixelShaderResource), u0, p0, n0);
      Appended3(c0, SetRootSignature(RsmRootSig), SetRenderTargets([RsmNormal, RsmDiffuse, RsmSpecular], RsmDepth, false),
                SetPipelineState(RsmPso));
      Appended4(c2, BeginTransition(RsmDepth, NonPixelShaderResource), BeginTransition(RsmNormal, NonPixelShaderResource),
                BeginTransition(RsmDiffuse, NonPixelShaderResource), BeginTransition(RsmSpecular, NonPixelShaderResource));
      Chained(c0, RsmSetup(), ModelDraws(variant, scene, RsmCutoutPso, MODEL_SRV_COUNT), RsmRelease());
    }

    /** ShadowMapPass: depth from the light into the shadow map, which is then released to pixel-shader reads. */
    method ShadowMapPass(ctx: GraphicsContext, scene: Scene, ghost u0: map<Resource, ResourceState>,
                         ghost p0: map<Resource, ResourceState>, ghost n0: nat)
      requires SceneOk(variant, scene) && Tracks(ctx, u0, p0, n0)
      modifies ctx`commands, ctx`usage, ctx`transitioning
      ensures ctx.commands == old(ctx.commands) + ShadowLog(variant, scene) && Tracks(ctx, u0, p0, n0)
    {
      ghost var c0 := ctx.commands;
      Record(ctx, SetRootSignature(DepthRootSig), u0, p0, n0);
      Record(ctx, SetRenderTargets([], ShadowMap, false), u0, p0, n0);
      Record(ctx, SetPipelineState(ShadowMapPso), u0, p0, n0);
      ghost var c1 := ctx.commands;
      DrawDepthModels(ctx, scene, ShadowMapCutoutPso, u0, p0, n0);
      ghost var c2 := ctx.commands;
      Record(ctx, BeginTransition(ShadowMap, PixelShaderResource), u0, p0, n0);
      Appended3(c0, SetRootSignature(DepthRootSig), SetRenderTargets([], ShadowMap, false), SetPipelineState(ShadowMapPso));
      Chained(c0, ShadowSetup(), DepthDraws(variant, scene, ShadowMapCutoutPso), ShadowRelease());
    }

    /**
     * VSGLGenerationPass: the RSM buffers, asserted to be RSM_WIDTH squares, finish
     * their transitions; two single-group dispatches write the diffuse and then
     * the specular light into the light buffer.
     */
    method VsglGenerationPass(ctx: GraphicsContext, ghost u0: map<Resource, ResourceState>,
                              ghost p0: map<Resource, ResourceState>, ghost n0: nat)
      requires RsmSized(buffers) && Tracks(ctx, u0, p0, n0)
      modifies ctx`commands, ctx`usage, ctx`transitioning
      ensures ctx.commands == old(ctx.commands) + VsglLog() && Tracks(ctx, u0, p0, n0)
    {
      ghost var c0 := ctx.commands;
      Record(ctx, Transition(RsmDepth, NonPixelShaderResource), u0, p0, n0);
      Record(ctx, Transition(RsmNormal, NonPixelShaderResource), u0, p0, n0);
      Record(ctx, Transition(RsmDiffuse, NonPixelShaderResource), u0, p0, n0);
      Record(ctx, Transition(RsmSpecular, NonPixelShaderResource), u0, p0, n0);
      Record(ctx, SetRootSignature(VsglRootSig), u0, p0, n0);
      Record(ctx, SetBufferUav(SgLightBuffer), u0, p0, n0);
      ghost var c1 := ctx.commands;
      Record(ctx, SetDynamicDescriptors(0, [RsmDepth, RsmNormal, RsmDiffuse]), u0, p0, n0);
      Record(ctx, SetConstants(0), u0, p0, n0);
      Record(ctx, SetPipelineState(VsglDiffusePso), u0, p0, n0);
      Record(ctx, VSGL_DISPATCH, u0, p0, n0);
      ghost var c2 := ctx.commands;
      Record(ctx, SetDynamicDescriptors(2, [RsmSpecular]), u0, p0, n0);
      Record(ctx, SetConstants(1), u0, p0, n0);
      Record(ctx, SetPipelineState(VsglSpecularPso), u0, p0, n0);
      Record(ctx, VSGL_DISPATCH, u0, p0, n0);
      Appended6(c0, Transition(RsmDepth, NonPixelShaderResource), Transition(RsmNormal, NonPixelShaderResource),
                Transition(RsmDiffuse, NonPixelShaderResource), Transition(RsmSpecular, NonPixelShaderResource),
                SetRootSignature(VsglRootSig), SetBufferUav(SgLightBuffer));
      Appended4(c1, SetDynamicDescriptors(0, [RsmDepth, RsmNormal, RsmDiffuse]), SetConstants(0),
                SetPipelineState(VsglDiffusePso), VSGL_DISPATCH);
      Appended4(c2, SetDynamicDescriptors(2, [RsmSpecular]), SetConstants(1), SetPipelineState(VsglSpecularPso), VSGL_DISPATCH);
      VsglCalls();
      Chained(c0, VsglTransitions() + VsglBind(), DiffuseSettings() + [VSGL_DISPATCH], SpecularSettings() + [VSGL_DISPATCH]);
    }

    /** DepthPass: the scene depth from the camera; the target stays in depth-write. */
    method DepthPass(ctx: GraphicsContext, scene: Scene, ghost u0: map<Resource, ResourceState>,
                     ghost p0: map<Resource, ResourceState>, ghost n0: nat)
      requires SceneOk(variant, scene) && Tracks(ctx, u0, p0, n0)
      modifies ctx`commands, ctx`usage, ctx`transitioning
      ensures ctx.commands == old(ctx.commands) + DepthPassLog(variant, scene) && Tracks(ctx, u0, p0, n0)
    {
      ghost var c0 := ctx.commands;
      Record(ctx, SetRootSignature(DepthRootSig), u0, p0, n0);
      Record(ctx, SetRenderTargets([], SceneDepth, false), u0, p0, n0);
      Record(ctx, SetPipelineState(DepthPso), u0, p0, n0);
      ghost var c1 := ctx.commands;
      DrawDepthModels(ctx, scene, DepthCutoutPso, u0, p0, n0);
      Appended3(c0, SetRootSignature(DepthRootSig), SetRenderTargets([], SceneDepth, false), SetPipelineState(DepthPso));
      Chained2(c0, DepthSetup(), DepthDraws(variant, scene, DepthCutoutPso));
    }

    /** LightingPass: shading into the scene colour against read-only depth, with the shadow map and the lights. */
    method LightingPass(ctx: GraphicsContext, scene: Scene, hsg: bool, ghost u0: map<Resource, ResourceState>,
                        ghost p0: map<Resource, ResourceState>, ghost n0: nat)
      requires SceneOk(variant, scene) && Tracks(ctx, u0, p0, n0)
      modifies ctx`commands, ctx`usage, ctx`transitioning
      ensures ctx.commands == old(ctx.commands) + LightingLog(variant, scene, hsg) && Tracks(ctx, u0, p0, n0)
    {
      ghost var c0 := ctx.commands;
      Record(ctx, Transition(SceneDepth, DepthRead), u0, p0, n0);
      Record(ctx, Transition(ShadowMap, PixelShaderResource), u0, p0, n0);
      Record(ctx, Transition(SgLightBuffer, VertexAndConstantBuffer), u0, p0, n0);
      ghost var c1 := ctx.commands;
      Record(ctx, SetRootSignature(LightingRootSig), u0, p0, n0);
      Record(ctx, SetBufferCbv(SgLightBuffer), u0, p0, n0);
      Record(ctx, ShadowBind(variant), u0, p0, n0);
      Record(ctx, SetRenderTargets([SceneColor], SceneDepth, true), u0, p0, n0);
      Record(ctx, SetPipelineState(LightingPsoOf(variant, hsg, false)), u0, p0, n0);
      ghost var c2 := ctx.commands;
      DrawModels(ctx, scene, LightingPsoOf(variant, hsg, true), MODEL_SRV_COUNT, u0, p0, n0);
      Appended3(c0, Transition(SceneDepth, DepthRead), Transition(ShadowMap, PixelShaderResource),
                Transition(SgLightBuffer, VertexAndConstantBuffer));
      Appended5(c1, SetRootSignature(LightingRootSig), SetBufferCbv(SgLightBuffer), ShadowBind(variant),
                SetRenderTargets([SceneColor], SceneDepth, true), SetPipelineState(LightingPsoOf(variant, hsg, false)));
      LightingCalls(variant, hsg);
      Chained(c0, LightingTransitions(), LightingSetup(variant, hsg),
              ModelDraws(variant, scene, LightingPsoOf(variant, hsg, true), MODEL_SRV_COUNT));
    }

    /** Render's opening: every target moves to the state it is written in, and all but the RSM normal buffer are cleared. */
    method InitializeTargets(ctx: GraphicsContext, ghost u0: map<Resource, ResourceState>,
                             ghost p0: map<Resource, ResourceState>, ghost n0: nat)
      requires Tracks(ctx, u0, p0, n0)
      modifies ctx`commands, ctx`usage, ctx`transitioning
      ensures ctx.commands == old(ctx.commands) + InitLog() && Tracks(ctx, u0, p0, n0)
    {
      ghost var c0 := ctx.commands;
      Record(ctx, Transition(RsmDepth, DepthWrite), u0, p0, n0);
      Record(ctx, Transition(RsmNormal, RenderTarget), u0, p0, n0);
      Record(ctx, Transition(RsmDiffuse, RenderTarget), u0, p0, n0);
      Record(ctx, Transition(RsmSpecular, RenderTarget), u0, p0, n0);
      Record(ctx, Transition(ShadowMap, DepthWrite), u0, p0, n0);
      Record(ctx, Transition(SgLightBuffer, UnorderedAccess), u0, p0, n0);
      Record(ctx, Transition(SceneDepth, DepthWrite), u0, p0, n0);
      Record(ctx, Transition(SceneColor, RenderTarget), u0, p0, n0);
      ghost var c1 := ctx.commands;
      Record(ctx, ClearDepth(RsmDepth), u0, p0, n0);
      Record(ctx, ClearColor(RsmDiffuse), u0, p0, n0);
      Record(ctx, ClearColor(RsmSpecular), u0, p0, n0);
      ghost var c2 := ctx.commands;
      Record(ctx, ClearDepth(ShadowMap), u0, p0, n0);
      Record(ctx, ClearDepth(SceneDepth), u0, p0, n0);
      Record(ctx, ClearColor(SceneColor), u0, p0, n0);
      Appended8(c0, Transition(RsmDepth, DepthWrite), Transition(RsmNormal, RenderTarget),
                Transition(RsmDiffuse, RenderTarget), Transition(RsmSpecular, RenderTarget),
                Transition(ShadowMap, DepthWrite), Transition(SgLightBuffer, UnorderedAccess),
                Transition(SceneDepth, DepthWrite), Transition(SceneColor, RenderTarget));
      Appended3(c1, ClearDepth(RsmDepth), ClearColor(RsmDiffuse), ClearColor(RsmSpecular));
      Appended3(c2, ClearDepth(ShadowMap), ClearDepth(SceneDepth), ClearColor(SceneColor));
      Chained(c0, InitTransitions(), RsmClears(), TargetClears());
    }

    /**
     * Render: the targets are prepared and cleared, then the five passes run in order. The
     * context's states end where replaying the frame's log leads.
     */
    method Render(ctx: GraphicsContext, scene: Scene, hsg: bool)
      requires SceneOk(variant, scene) && RsmSized(buffers)
      modifies ctx`commands, ctx`usage, ctx`transitioning
      ensures ctx.commands == old(ctx.commands) + FrameLog(variant, scene, hsg)
      ensures ctx.usage == StatesAfter(old(ctx.usage), FrameLog(variant, scene, hsg))
      ensures ctx.transitioning == PendingAfter(old(ctx.transitioning), FrameLog(variant, scene, hsg))
    {
      ghost var u0, p0, n0 := ctx.usage, ctx.transitioning, |ctx.commands|;
      assert ctx.commands[n0..] == [];
      ghost var c0 := ctx.commands;
      InitializeTargets(ctx, u0, p0, n0);
      ghost var log := InitLog();
      ReflectiveShadowMapPass(ctx, scene, u0, p0, n0);
      Chained2(c0, log, RsmLog(variant, scene));
      log := log + RsmLog(variant, scene);
      ShadowMapPass(ctx, scene, u0, p0, n0);
      Chained2(c0, log, ShadowLog(variant, scene));
      log := log + ShadowLog(variant, scene);
      VsglGenerationPass(ctx, u0, p0, n0);
      Chained2(c0, log, VsglLog());
      log := log + VsglLog();
      DepthPass(ctx, scene, u0, p0, n0);
      Chained2(c0, log, DepthPassLog(variant, scene));
      log := log + DepthPassLog(variant, scene);
      LightingPass(ctx, scene, hsg, u0, p0, n0);
      Chained2(c0, log, LightingLog(variant, scene, hsg));
      log := log + LightingLog(variant, scene, hsg);
      assert ctx.commands == c0 + log && log == FrameLog(variant, scene, hsg);
      assert ctx.commands[n0..] == log;
    }
  }
}

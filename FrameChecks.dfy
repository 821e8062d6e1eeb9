// What a frame's command list does when it is replayed from any GPU state:
// every clear, draw and dispatch finds its resources in the state it needs,
// the two dispatches see the RSM buffers in the registers the VSGL shaders
// read, and the frame leaves no split transition of its targets outstanding.
module FrameChecks {
  import opened Wrappers
  import opened GpuContext
  import opened CommandReplay
  import opened FrameRenderer

  // ----- The states between passes -----

  /** The light buffer and the scene's targets are in the states they are written in. */
  predicate Written(g: Gpu)
  {
    && Settled(g, SgLightBuffer, UnorderedAccess) && Settled(g, SceneDepth, DepthWrite)
    && Settled(g, SceneColor, RenderTarget)
  }

  /** After Render's opening: every target is settled in the state it is written in. */
  predicate AfterInit(g: Gpu)
  {
    && Settled(g, RsmDepth, DepthWrite) && Settled(g, RsmNormal, RenderTarget)
    && Settled(g, RsmDiffuse, RenderTarget) && Settled(g, RsmSpecular, RenderTarget)
    && Settled(g, ShadowMap, DepthWrite) && Written(g)
  }

  /** After the RSM pass the shadow map is still ready to be written. */
  predicate AfterRsm(g: Gpu)
  {
    Settled(g, ShadowMap, DepthWrite) && Written(g)
  }

  /** The four RSM buffers are readable by compute shaders. */
  predicate RsmReadable(g: Gpu)
  {
    && Settled(g, RsmDepth, NonPixelShaderResource) && Settled(g, RsmNormal, NonPixelShaderResource)
    && Settled(g, RsmDiffuse, NonPixelShaderResource) && Settled(g, RsmSpecular, NonPixelShaderResource)
  }

  /** After VSGL generation (and after the depth pre-pass). */
  predicate AfterVsgl(g: Gpu)
  {
    RsmReadable(g) && Written(g)
  }

  /** At the end of a frame every target is settled: nothing is left mid-transition. */
  predicate Final(g: Gpu)
  {
    && RsmReadable(g) && Settled(g, ShadowMap, PixelShaderResource)
    && Settled(g, SgLightBuffer, VertexAndConstantBuffer) && Settled(g, SceneDepth, DepthRead)
    && Settled(g, SceneColor, RenderTarget)
  }

  /** What the diffuse VSGL dispatch reads: RSM depth, normal and diffuse in registers 0, 1 and 2. */
  const DIFFUSE_VIEWS: map<nat, Resource> := map[0 := RsmDepth, 1 := RsmNormal, 2 := RsmDiffuse]
  /** What the specular VSGL dispatch reads: the same, with RSM specular in register 2. */
  const SPECULAR_VIEWS: map<nat, Resource> := map[0 := RsmDepth, 1 := RsmNormal, 2 := RsmSpecular]

  // ----- Draw loops -----

  lemma ModelDrawsSide(v: Variant, scene: Scene, cutoutPso: Pipeline, srvCount: nat)
    requires SceneOk(v, scene) && srvCount <= MODEL_SRV_COUNT
    ensures forall c :: c in ModelDraws(v, scene, cutoutPso, srvCount) ==> DrawSide(c)
  {
    DrawLogCalls(v, scene.model, MainModel, srvCount);
    DrawLogCalls(v, scene.modelCutout, CutoutModel, srvCount);
  }

  lemma DepthDrawsSide(v: Variant, scene: Scene, cutoutPso: Pipeline)
    requires SceneOk(v, scene)
    ensures forall c :: c in DepthDraws(v, scene, cutoutPso) ==> DrawSide(c)
  {
    DepthDrawLogCalls(v, scene.model);
    DrawLogCalls(v, scene.modelCutout, CutoutModel, CUTOUT_SRV_COUNT);
  }

  // ----- Render's opening -----

  lemma InitMovesChecked(g: Gpu)
    ensures Checked(g, InitTransitions()) && Dispatches(g, InitTransitions()) == []
    ensures AfterInit(Replay(g, InitTransitions()))
  {
    MovesSettle(g, InitTransitions(), {});
  }

  lemma InitClearsChecked(g: Gpu)
    requires AfterInit(g)
    ensures Checked(g, InitClears()) && Dispatches(g, InitClears()) == [] && Replay(g, InitClears()) == g
  {
    ClearsChecked(g, RsmClears());
    ClearsChecked(g, TargetClears());
    ReplayAppend(g, RsmClears(), TargetClears());
  }

  /** From any state, Render's opening is checked and leaves every target ready to be written. */
  lemma InitChecked(g: Gpu)
    ensures Checked(g, InitLog()) && Dispatches(g, InitLog()) == [] && AfterInit(Replay(g, InitLog()))
  {
    InitMovesChecked(g);
    InitClearsChecked(Replay(g, InitTransitions()));
    ReplayAppend(g, InitTransitions(), InitClears());
  }

  // ----- The RSM pass -----

  lemma RsmSetupReady(g: Gpu)
    requires AfterInit(g)
    ensures Checked(g, RsmSetup()) && Dispatches(g, RsmSetup()) == []
    ensures DrawReady(Replay(g, RsmSetup())) && AfterInit(Replay(g, RsmSetup()))
  {
    SettingsThree(g, SetRootSignature(RsmRootSig), SetRenderTargets([RsmNormal, RsmDiffuse, RsmSpecular], RsmDepth, false),
                  SetPipelineState(RsmPso));
  }

  lemma RsmReleaseKeeps(g: Gpu)
    requires AfterRsm(g)
    ensures Checked(g, RsmRelease()) && Dispatches(g, RsmRelease()) == [] && AfterRsm(Replay(g, RsmRelease()))
  {
    BeginsKeep(g, RsmRelease(), {ShadowMap, SgLightBuffer, SceneDepth, SceneColor});
  }

  /** The RSM pass runs after the opening and leaves the shadow map ready for its own pass. */
  lemma RsmChecked(v: Variant, scene: Scene, g: Gpu)
    requires SceneOk(v, scene) && AfterInit(g)
    ensures Checked(g, RsmLog(v, scene)) && Dispatches(g, RsmLog(v, scene)) == []
    ensures AfterRsm(Replay(g, RsmLog(v, scene)))
  {
    var draws := ModelDraws(v, scene, RsmCutoutPso, MODEL_SRV_COUNT);
    RsmSetupReady(g);
    var h := Replay(g, RsmSetup());
    ModelDrawsSide(v, scene, RsmCutoutPso, MODEL_SRV_COUNT);
    DrawSideChecked(h, draws);
    RsmReleaseKeeps(Replay(h, draws));
    ReplayAppend(g, RsmSetup(), draws);
    ReplayAppend(g, RsmSetup() + draws, RsmRelease());
  }

  // ----- The shadow map pass -----

  lemma ShadowSetupReady(g: Gpu)
    requires AfterRsm(g)
    ensures Checked(g, ShadowSetup()) && Dispatches(g, ShadowSetup()) == []
    ensures DrawReady(Replay(g, ShadowSetup())) && AfterRsm(Replay(g, ShadowSetup()))
  {
    SettingsThree(g, SetRootSignature(DepthRootSig), SetRenderTargets([], ShadowMap, false), SetPipelineState(ShadowMapPso));
  }

  lemma ShadowReleaseKeeps(g: Gpu)
    requires Written(g)
    ensures Checked(g, ShadowRelease()) && Dispatches(g, ShadowRelease()) == [] && Written(Replay(g, ShadowRelease()))
  {
    BeginsKeep(g, ShadowRelease(), {SgLightBuffer, SceneDepth, SceneColor});
  }

  /** The shadow map pass runs after the RSM pass. */
  lemma ShadowChecked(v: Variant, scene: Scene, g: Gpu)
    requires SceneOk(v, scene) && AfterRsm(g)
    ensures Checked(g, ShadowLog(v, scene)) && Dispatches(g, ShadowLog(v, scene)) == []
    ensures Written(Replay(g, ShadowLog(v, scene)))
  {
    var draws := DepthDraws(v, scene, ShadowMapCutoutPso);
    ShadowSetupReady(g);
    var h := Replay(g, ShadowSetup());
    DepthDrawsSide(v, scene, ShadowMapCutoutPso);
    DrawSideChecked(h, draws);
    ShadowReleaseKeeps(Replay(h, draws));
    ReplayAppend(g, ShadowSetup(), draws);
    ReplayAppend(g, ShadowSetup() + draws, ShadowRelease());
  }

  // ----- VSGL generation -----

  /** What a VSGL dispatch needs besides its registers: the RSM readable by compute and the light buffer as the UAV. */
  predicate VsglReady(g: Gpu)
  {
    RsmReadable(g) && Settled(g, SgLightBuffer, UnorderedAccess) && g.uav == Some(SgLightBuffer)
  }

  lemma VsglTransitionsSettle(g: Gpu)
    ensures Checked(g, VsglTransitions()) && Dispatches(g, VsglTransitions()) == []
    ensures RsmReadable(Replay(g, VsglTransitions()))
    ensures Written(g) ==> Written(Replay(g, VsglTransitions()))
  {
    MovesSettle(g, VsglTransitions(), {SgLightBuffer, SceneDepth, SceneColor});
  }

  lemma VsglBindState(g: Gpu)
    ensures Checked(g, VsglBind()) && Dispatches(g, VsglBind()) == []
    ensures Replay(g, VsglBind()) == g.(views := map[], uav := Some(SgLightBuffer), cbv := None)
  {
    SettingsTwo(g, SetRootSignature(VsglRootSig), SetBufferUav(SgLightBuffer));
  }

  lemma PlaceDiffuse()
    ensures Place(map[], 0, [RsmDepth, RsmNormal, RsmDiffuse]) == DIFFUSE_VIEWS
  {
    var m := Place(map[], 0, [RsmDepth, RsmNormal, RsmDiffuse]);
    assert m.Keys == DIFFUSE_VIEWS.Keys;
  }

  lemma PlaceSpecular()
    ensures Place(DIFFUSE_VIEWS, 2, [RsmSpecular]) == SPECULAR_VIEWS
  {
    var m := Place(DIFFUSE_VIEWS, 2, [RsmSpecular]);
    assert m.Keys == SPECULAR_VIEWS.Keys;
  }

  /** The diffuse dispatch's settings: RSM depth, normal and diffuse in registers 0 to 2, constant 0. */
  lemma DiffuseSet(g: Gpu)
    requires g.views == map[]
    ensures Checked(g, DiffuseSettings()) && Dispatches(g, DiffuseSettings()) == []
    ensures Replay(g, DiffuseSettings()) == g.(views := DIFFUSE_VIEWS, pso := Some(VsglDiffusePso), constant := Some(0))
  {
    var place := SetDynamicDescriptors(0, [RsmDepth, RsmNormal, RsmDiffuse]);
    SettingsThree(g, place, SetConstants(0), SetPipelineState(VsglDiffusePso));
    PlaceDiffuse();
  }

  /** The specular dispatch's settings: the same registers but for RSM specular in register 2, constant 1. */
  lemma SpecularSet(g: Gpu)
    requires g.views == DIFFUSE_VIEWS
    ensures Checked(g, SpecularSettings()) && Dispatches(g, SpecularSettings()) == []
    ensures Replay(g, SpecularSettings()) == g.(views := SPECULAR_VIEWS, pso := Some(VsglSpecularPso), constant := Some(1))
  {
    var place := SetDynamicDescriptors(2, [RsmSpecular]);
    SettingsThree(g, place, SetConstants(1), SetPipelineState(VsglSpecularPso));
    PlaceSpecular();
  }

  /** VSGL generation's transitions and bindings: the RSM is readable by compute and the light buffer is the UAV. */
  lemma VsglPrepared(g: Gpu)
    ensures Checked(g, VsglTransitions() + VsglBind()) && Dispatches(g, VsglTransitions() + VsglBind()) == []
    ensures var h := Replay(g, VsglTransitions() + VsglBind());
      && RsmReadable(h) && h.views == map[] && h.uav == Some(SgLightBuffer)
      && (Written(g) ==> Written(h))
  {
    VsglTransitionsSettle(g);
    VsglBindState(Replay(g, VsglTransitions()));
    ReplayAppend(g, VsglTransitions(), VsglBind());
  }

  /** The diffuse dispatch finds the RSM buffers readable by compute and the light buffer writable. */
  lemma DiffuseReady(g: Gpu)
    requires VsglReady(g) && g.views == map[]
    ensures DispatchReady(Replay(g, DiffuseSettings()))
  {
    DiffuseSet(g);
  }

  /** So does the specular dispatch. */
  lemma SpecularReady(g: Gpu)
    requires VsglReady(g) && g.views == DIFFUSE_VIEWS
    ensures DispatchReady(Replay(g, SpecularSettings()))
  {
    SpecularSet(g);
  }

  /** The diffuse dispatch runs with its pipeline, constant and registers, and finds them ready when the RSM is. */
  lemma DiffuseRuns(g: Gpu)
    requires g.views == map[]
    ensures VsglReady(g) ==> Checked(g, DiffuseSettings() + [VSGL_DISPATCH])
    ensures Dispatches(g, DiffuseSettings() + [VSGL_DISPATCH]) == [DispatchInfo(Some(VsglDiffusePso), Some(0), DIFFUSE_VIEWS)]
    ensures Replay(g, DiffuseSettings() + [VSGL_DISPATCH]) == g.(views := DIFFUSE_VIEWS, pso := Some(VsglDiffusePso), constant := Some(0))
  {
    DiffuseSet(g);
    if VsglReady(g) {
      DiffuseReady(g);
    }
    DispatchRuns(Replay(g, DiffuseSettings()), VSGL_DISPATCH);
    ReplayAppend(g, DiffuseSettings(), [VSGL_DISPATCH]);
  }

  /** So does the specular dispatch after it. */
  lemma SpecularRuns(g: Gpu)
    requires g.views == DIFFUSE_VIEWS
    ensures VsglReady(g) ==> Checked(g, SpecularSettings() + [VSGL_DISPATCH])
    ensures Dispatches(g, SpecularSettings() + [VSGL_DISPATCH]) == [DispatchInfo(Some(VsglSpecularPso), Some(1), SPECULAR_VIEWS)]
    ensures Replay(g, SpecularSettings() + [VSGL_DISPATCH]) == g.(views := SPECULAR_VIEWS, pso := Some(VsglSpecularPso), constant := Some(1))
  {
    SpecularSet(g);
    if VsglReady(g) {
      SpecularReady(g);
    }
    DispatchRuns(Replay(g, SpecularSettings()), VSGL_DISPATCH);
    ReplayAppend(g, SpecularSettings(), [VSGL_DISPATCH]);
  }

  /** VSGL generation runs after the shadow map pass and leaves the RSM readable by compute. */
  lemma VsglChecked(g: Gpu)
    requires Written(g)
    ensures Checked(g, VsglLog()) && AfterVsgl(Replay(g, VsglLog()))
  {
    var prep := VsglTransitions() + VsglBind();
    var diffuse := DiffuseSettings() + [VSGL_DISPATCH];
    var specular := SpecularSettings() + [VSGL_DISPATCH];
    VsglPrepared(g);
    var g1 := Replay(g, prep);
    assert VsglReady(g1);
    DiffuseRuns(g1);
    var g2 := Replay(g1, diffuse);
    assert VsglReady(g2) && Written(g2);
    SpecularRuns(g2);
    ReplayAppend(g, prep, diffuse);
    ReplayAppend(g, prep + diffuse, specular);
  }

  /**
   * From any state, VSGL generation's two dispatches: diffuse (constant 0) then
   * specular (constant 1), reading the RSM buffers, with only register 2 differing.
   */
  lemma VsglDispatches(g: Gpu)
    ensures Dispatches(g, VsglLog()) == [DispatchInfo(Some(VsglDiffusePso), Some(0), DIFFUSE_VIEWS),
                                         DispatchInfo(Some(VsglSpecularPso), Some(1), SPECULAR_VIEWS)]
  {
    var prep := VsglTransitions() + VsglBind();
    var diffuse := DiffuseSettings() + [VSGL_DISPATCH];
    var specular := SpecularSettings() + [VSGL_DISPATCH];
    VsglPrepared(g);
    var g1 := Replay(g, prep);
    DiffuseRuns(g1);
    SpecularRuns(Replay(g1, diffuse));
    ReplayAppend(g, prep, diffuse);
    ReplayAppend(g, prep + diffuse, specular);
  }

  // ----- The depth pre-pass -----

  lemma DepthSetupReady(g: Gpu)
    requires AfterVsgl(g)
    ensures Checked(g, DepthSetup()) && Dispatches(g, DepthSetup()) == []
    ensures DrawReady(Replay(g, DepthSetup())) && AfterVsgl(Replay(g, DepthSetup()))
  {
    SettingsThree(g, SetRootSignature(DepthRootSig), SetRenderTargets([], SceneDepth, false), SetPipelineState(DepthPso));
  }

  /** The depth pre-pass runs after VSGL generation and moves no state. */
  lemma DepthPassChecked(v: Variant, scene: Scene, g: Gpu)
    requires SceneOk(v, scene) && AfterVsgl(g)
    ensures Checked(g, DepthPassLog(v, scene)) && Dispatches(g, DepthPassLog(v, scene)) == []
    ensures AfterVsgl(Replay(g, DepthPassLog(v, scene)))
  {
    var draws := DepthDraws(v, scene, DepthCutoutPso);
    DepthSetupReady(g);
    DepthDrawsSide(v, scene, DepthCutoutPso);
    DrawSideChecked(Replay(g, DepthSetup()), draws);
    ReplayAppend(g, DepthSetup(), draws);
  }

  // ----- The lighting pass -----

  lemma LightingTransitionsSettle(g: Gpu)
    requires AfterVsgl(g)
    ensures Checked(g, LightingTransitions()) && Dispatches(g, LightingTransitions()) == []
    ensures Final(Replay(g, LightingTransitions()))
  {
    MovesSettle(g, LightingTransitions(), {RsmDepth, RsmNormal, RsmDiffuse, RsmSpecular, SceneColor});
  }

  /** Both ways of binding the shadow map put it, alone, in register MODEL_SRV_COUNT of a fresh table. */
  lemma ShadowBound(g: Gpu, v: Variant)
    requires g.views == map[]
    ensures Apply(g, ShadowBind(v)) == g.(views := map[MODEL_SRV_COUNT := ShadowMap])
  {
    var m := Place(map[], MODEL_SRV_COUNT, [ShadowMap]);
    assert m.Keys == {MODEL_SRV_COUNT};
  }

  /**
   * The lighting pass's bindings: the light buffer as the CBV, the shadow map in
   * register MODEL_SRV_COUNT, the scene colour as target over read-only scene
   * depth, and the plain or hemispherical-convolution pipeline.
   */
  lemma LightingSetupState(v: Variant, hsg: bool, g: Gpu)
    ensures Checked(g, LightingSetup(v, hsg)) && Dispatches(g, LightingSetup(v, hsg)) == []
    ensures Replay(g, LightingSetup(v, hsg)) ==
      g.(colour := [SceneColor], depth := Some(SceneDepth), depthReadOnly := true,
         views := map[MODEL_SRV_COUNT := ShadowMap], uav := None, cbv := Some(SgLightBuffer),
         pso := Some(LightingPsoOf(v, hsg, false)))
  {
    var bind := [SetRootSignature(LightingRootSig), SetBufferCbv(SgLightBuffer)];
    var rest := [ShadowBind(v), SetRenderTargets([SceneColor], SceneDepth, true), SetPipelineState(LightingPsoOf(v, hsg, false))];
    SettingsTwo(g, bind[0], bind[1]);
    var h := Replay(g, bind);
    ShadowBound(h, v);
    SettingsThree(h, rest[0], rest[1], rest[2]);
    ReplayAppend(g, bind, rest);
  }

  /** After its bindings, the lighting pass's draws find everything they read and write ready. */
  lemma LightingSetupReady(v: Variant, hsg: bool, g: Gpu)
    requires Final(g)
    ensures Checked(g, LightingSetup(v, hsg)) && Dispatches(g, LightingSetup(v, hsg)) == []
    ensures DrawReady(Replay(g, LightingSetup(v, hsg))) && Final(Replay(g, LightingSetup(v, hsg)))
  {
    LightingSetupState(v, hsg, g);
  }

  /** The lighting pass runs after the depth pre-pass and leaves every target settled. */
  lemma LightingChecked(v: Variant, scene: Scene, hsg: bool, g: Gpu)
    requires SceneOk(v, scene) && AfterVsgl(g)
    ensures Checked(g, LightingLog(v, scene, hsg)) && Dispatches(g, LightingLog(v, scene, hsg)) == []
    ensures Final(Replay(g, LightingLog(v, scene, hsg)))
  {
    var draws := ModelDraws(v, scene, LightingPsoOf(v, hsg, true), MODEL_SRV_COUNT);
    LightingTransitionsSettle(g);
    var g1 := Replay(g, LightingTransitions());
    LightingSetupReady(v, hsg, g1);
    var g2 := Replay(g1, LightingSetup(v, hsg));
    ModelDrawsSide(v, scene, LightingPsoOf(v, hsg, true), MODEL_SRV_COUNT);
    DrawSideChecked(g2, draws);
    ReplayAppend(g, LightingTransitions(), LightingSetup(v, hsg));
    ReplayAppend(g, LightingTransitions() + LightingSetup(v, hsg), draws);
  }

  // ----- A whole frame -----

  /** The states after each stage of a frame replayed from g. */
  lemma FrameStages(v: Variant, scene: Scene, hsg: bool, g: Gpu)
    requires SceneOk(v, scene)
    ensures var g1 := Replay(g, InitLog());
      var g2 := Replay(g1, RsmLog(v, scene));
      var g3 := Replay(g2, ShadowLog(v, scene));
      var g4 := Replay(g3, VsglLog());
      var g5 := Replay(g4, DepthPassLog(v, scene));
      && Checked(g, InitLog()) && Checked(g1, RsmLog(v, scene)) && Checked(g2, ShadowLog(v, scene))
      && Checked(g3, VsglLog()) && Checked(g4, DepthPassLog(v, scene)) && Checked(g5, LightingLog(v, scene, hsg))
      && Dispatches(g, InitLog()) == [] && Dispatches(g1, RsmLog(v, scene)) == []
      && Dispatches(g2, ShadowLog(v, scene)) == [] && Dispatches(g4, DepthPassLog(v, scene)) == []
      && Dispatches(g5, LightingLog(v, scene, hsg)) == []
      && Final(Replay(g5, LightingLog(v, scene, hsg)))
  {
    InitChecked(g);
    var g1 := Replay(g, InitLog());
    RsmChecked(v, scene, g1);
    var g2 := Replay(g1, RsmLog(v, scene));
    ShadowChecked(v, scene, g2);
    var g3 := Replay(g2, ShadowLog(v, scene));
    VsglChecked(g3);
    var g4 := Replay(g3, VsglLog());
    DepthPassChecked(v, scene, g4);
    var g5 := Replay(g4, DepthPassLog(v, scene));
    LightingChecked(v, scene, hsg, g5);
  }

  /**
   * From any GPU state, every clear, draw and dispatch of a frame finds the
   * resources it uses in the state it needs, and the frame ends with every
   * target settled: no split transition is left outstanding.
   */
  lemma FrameChecked(v: Variant, scene: Scene, hsg: bool, g: Gpu)
    requires SceneOk(v, scene)
    ensures Checked(g, FrameLog(v, scene, hsg)) && Final(Replay(g, FrameLog(v, scene, hsg)))
  {
    var i, r, s, x, d, l := InitLog(), RsmLog(v, scene), ShadowLog(v, scene), VsglLog(), DepthPassLog(v, scene), LightingLog(v, scene, hsg);
    FrameStages(v, scene, hsg, g);
    ReplayAppend(g, i, r);
    ReplayAppend(g, i + r, s);
    ReplayAppend(g, i + r + s, x);
    ReplayAppend(g, i + r + s + x, d);
    ReplayAppend(g, i + r + s + x + d, l);
  }

  /** From any GPU state, a frame dispatches exactly twice: the diffuse and then the specular VSGL generation. */
  lemma FrameDispatches(v: Variant, scene: Scene, hsg: bool, g: Gpu)
    requires SceneOk(v, scene)
    ensures Dispatches(g, FrameLog(v, scene, hsg)) ==
      [DispatchInfo(Some(VsglDiffusePso), Some(0), DIFFUSE_VIEWS), DispatchInfo(Some(VsglSpecularPso), Some(1), SPECULAR_VIEWS)]
  {
    var vsgl := [DispatchInfo(Some(VsglDiffusePso), Some(0), DIFFUSE_VIEWS), DispatchInfo(Some(VsglSpecularPso), Some(1), SPECULAR_VIEWS)];
    var p1 := InitLog();
    var p2 := p1 + RsmLog(v, scene);
    var p3 := p2 + ShadowLog(v, scene);
    var p4 := p3 + VsglLog();
    var p5 := p4 + DepthPassLog(v, scene);
    FrameStages(v, scene, hsg, g);
    ReplayAppend(g, p1, RsmLog(v, scene));
    assert Dispatches(g, p2) == [];
    ReplayAppend(g, p2, ShadowLog(v, scene));
    assert Dispatches(g, p3) == [];
    VsglDispatches(Replay(g, p3));
    ReplayAppend(g, p3, VsglLog());
    assert Dispatches(g, p4) == vsgl;
    ReplayAppend(g, p4, DepthPassLog(v, scene));
    assert Dispatches(g, p5) == vsgl;
    ReplayAppend(g, p5, LightingLog(v, scene, hsg));
  }
}

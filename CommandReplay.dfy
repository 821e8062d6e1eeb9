// What a recorded command list does on the GPU, as far as resource states go:
// replaying it tracks the usage state of every resource and what the draw and
// dispatch calls read and write (render targets, shader-resource registers,
// the bound UAV and CBV), and checks that every clear, draw and dispatch finds
// the resources it uses in the state that use needs, with no split transition
// of them still outstanding.
module CommandReplay {
  import opened Wrappers
  import opened GpuContext

  /** Shader registers [0, MODEL_SRV_COUNT) hold a model's material textures (Scene::MODEL_SRV_COUNT). */
  const MODEL_SRV_COUNT: nat := 4
  /** The material textures a cutout depth draw needs (Scene::CUTOUT_SRV_COUNT). */
  const CUTOUT_SRV_COUNT: nat := 1

  /** The GPU-side state that a command list builds up as it is replayed. */
  datatype Gpu = Gpu(
    usage: map<Resource, ResourceState>,
    pending: map<Resource, ResourceState>,
    colour: seq<Resource>,
    depth: Option<Resource>,
    depthReadOnly: bool,
    views: map<nat, Resource>,
    uav: Option<Resource>,
    cbv: Option<Resource>,
    pso: Option<Pipeline>,
    constant: Option<nat>)

  /** What a dispatch ran with: the pipeline, the root constant and the resources in the shader registers. */
  datatype DispatchInfo = DispatchInfo(pso: Option<Pipeline>, constant: Option<nat>, views: map<nat, Resource>)

  /** The registers from count upwards; a material table overwrites those below. */
  function Above(views: map<nat, Resource>, count: nat): (r: map<nat, Resource>)
    ensures forall k :: k in r <==> k in views && k >= count
    ensures forall k :: k in r ==> r[k] == views[k]
  {
    map k | k in views && k >= count :: views[k]
  }

  /** The registers offset, offset + 1, ..., offset + n - 1. */
  function Slots(offset: nat, n: nat): (r: set<nat>)
    ensures forall k :: k in r <==> offset <= k < offset + n
  {
    if n == 0 then {} else Slots(offset, n - 1) + {offset + n - 1}
  }

  /** The registers after sources are placed at offset, offset + 1, and so on. */
  function Place(views: map<nat, Resource>, offset: nat, sources: seq<Resource>): (r: map<nat, Resource>)
    ensures forall i :: 0 <= i < |sources| ==> offset + i in r && r[offset + i] == sources[i]
    ensures forall k :: (k < offset || k >= offset + |sources|) ==> (k in r <==> k in views)
    ensures forall k :: (k < offset || k >= offset + |sources|) && k in r ==> r[k] == views[k]
  {
    map k | k in views.Keys + Slots(offset, |sources|) ::
      if offset <= k < offset + |sources| then sources[k - offset] else views[k]
  }

  /** One command's effect on the GPU state: only transitions move usage states. */
  function Apply(g: Gpu, c: Command): (h: Gpu)
    ensures h.usage == if c.Transition? then g.usage[c.resource := c.state] else g.usage
    ensures h.pending ==
      if c.Transition? then g.pending - {c.resource}
      else if c.BeginTransition? then g.pending[c.resource := c.state]
      else g.pending
  {
    match c
    case Transition(r, s) => g.(usage := g.usage[r := s], pending := g.pending - {r})
    case BeginTransition(r, s) => g.(pending := g.pending[r := s])
    case SetRenderTargets(colour, depth, readOnly) => g.(colour := colour, depth := Some(depth), depthReadOnly := readOnly)
    case SetRootSignature(_) => g.(views := map[], uav := None, cbv := None)
    case SetDynamicDescriptors(offset, sources) => g.(views := Place(g.views, offset, sources))
    case SetMaterialDescriptors(_, count) => g.(views := Above(g.views, count))
    case SetMaterialTable(_) => g.(views := Above(g.views, MODEL_SRV_COUNT))
    case SetLightingTable => g.(views := g.views[MODEL_SRV_COUNT := ShadowMap])
    case SetBufferUav(r) => g.(uav := Some(r))
    case SetBufferCbv(r) => g.(cbv := Some(r))
    case SetPipelineState(p) => g.(pso := Some(p))
    case SetConstants(x) => g.(constant := Some(x))
    case _ => g
  }

  /** r is in state s with no split transition of it outstanding. */
  predicate Settled(g: Gpu, r: Resource, s: ResourceState)
  {
    r in g.usage && g.usage[r] == s && r !in g.pending
  }

  /** A draw may run: its targets are writable, its depth buffer is in the bound mode, its views and CBV readable. */
  predicate DrawReady(g: Gpu)
  {
    && (forall i :: 0 <= i < |g.colour| ==> Settled(g, g.colour[i], RenderTarget))
    && (g.depth.Some? ==> Settled(g, g.depth.value, if g.depthReadOnly then DepthRead else DepthWrite))
    && (forall k :: k in g.views ==> Settled(g, g.views[k], PixelShaderResource))
    && (g.cbv.Some? ==> Settled(g, g.cbv.value, VertexAndConstantBuffer))
  }

  /** A dispatch may run: its views are readable by compute shaders and its UAV writable. */
  predicate DispatchReady(g: Gpu)
  {
    && (forall k :: k in g.views ==> Settled(g, g.views[k], NonPixelShaderResource))
    && (g.uav.Some? ==> Settled(g, g.uav.value, UnorderedAccess))
  }

  /** The state a command needs before it runs; commands that use no resource need nothing. */
  predicate Ready(g: Gpu, c: Command)
  {
    match c
    case ClearDepth(r) => Settled(g, r, DepthWrite)
    case ClearColor(r) => Settled(g, r, RenderTarget)
    case DrawIndexed(_, _, _) => DrawReady(g)
    case Dispatch(_, _, _) => DispatchReady(g)
    case _ => true
  }

  /** The GPU state after replaying cmds from g. */
  function Replay(g: Gpu, cmds: seq<Command>): Gpu
    decreases |cmds|
  {
    if cmds == [] then g else Replay(Apply(g, cmds[0]), cmds[1..])
  }

  /** Every command of cmds, replayed from g, finds the state it needs. */
  predicate Checked(g: Gpu, cmds: seq<Command>)
    decreases |cmds|
  {
    cmds == [] || (Ready(g, cmds[0]) && Checked(Apply(g, cmds[0]), cmds[1..]))
  }

  /** What each dispatch of cmds, replayed from g, runs with, in order. */
  function Dispatches(g: Gpu, cmds: seq<Command>): seq<DispatchInfo>
    decreases |cmds|
  {
    if cmds == [] then []
    else
      (if cmds[0].Dispatch? then [DispatchInfo(g.pso, g.constant, g.views)] else [])
      + Dispatches(Apply(g, cmds[0]), cmds[1..])
  }

  /** Replaying a list in two pieces is replaying it whole, and so are its checks and its dispatches. */
  lemma {:induction false} ReplayAppend(g: Gpu, a: seq<Command>, b: seq<Command>)
    ensures Replay(g, a + b) == Replay(Replay(g, a), b)
    ensures Checked(g, a + b) <==> Checked(g, a) && Checked(Replay(g, a), b)
    ensures Dispatches(g, a + b) == Dispatches(g, a) + Dispatches(Replay(g, a), b)
    decreases |a|
  {
    if a == [] {
      assert a + b == b;
    } else {
      assert (a + b)[0] == a[0];
      assert (a + b)[1..] == a[1..] + b;
      ReplayAppend(Apply(g, a[0]), a[1..], b);
    }
  }

  /** The usage states a replay tracks are the ones the recording context tracks. */
  lemma {:induction false} ReplayStates(g: Gpu, cmds: seq<Command>)
    ensures Replay(g, cmds).usage == StatesAfter(g.usage, cmds)
    ensures Replay(g, cmds).pending == PendingAfter(g.pending, cmds)
    decreases |cmds|
  {
    if cmds != [] {
      ReplayStates(Apply(g, cmds[0]), cmds[1..]);
    }
  }

  /** The kinds of command a frame's log is inspected for. */
  datatype CommandKind = Pipelines | Clears | Draws | Binds

  predicate IsPso(c: Command) { c.SetPipelineState? }
  predicate IsClear(c: Command) { c.ClearDepth? || c.ClearColor? }
  predicate IsDraw(c: Command) { c.DrawIndexed? }
  predicate IsBind(c: Command) { c.SetMaterialTable? || c.SetMaterialDescriptors? }

  predicate OfKind(c: Command, k: CommandKind)
  {
    match k
    case Pipelines => IsPso(c)
    case Clears => IsClear(c)
    case Draws => IsDraw(c)
    case Binds => IsBind(c)
  }

  /** The commands of cmds of kind k, in order. */
  function Filter(cmds: seq<Command>, k: CommandKind): (r: seq<Command>)
    ensures |r| <= |cmds|
    ensures forall i :: 0 <= i < |r| ==> OfKind(r[i], k)
    decreases |cmds|
  {
    if cmds == [] then []
    else (if OfKind(cmds[0], k) then [cmds[0]] else []) + Filter(cmds[1..], k)
  }

  /** Filter keeps exactly the commands of kind k. */
  lemma {:induction false} FilterMembers(cmds: seq<Command>, k: CommandKind)
    ensures forall c :: c in Filter(cmds, k) <==> c in cmds && OfKind(c, k)
    decreases |cmds|
  {
    if cmds != [] {
      FilterMembers(cmds[1..], k);
      assert forall c :: c in cmds <==> c == cmds[0] || c in cmds[1..];
    }
  }

  lemma FilterOne(c: Command, k: CommandKind)
    ensures Filter([c], k) == if OfKind(c, k) then [c] else []
  {
    assert [c][1..] == [];
  }

  lemma {:induction false} FilterAppend(a: seq<Command>, b: seq<Command>, k: CommandKind)
    ensures Filter(a + b, k) == Filter(a, k) + Filter(b, k)
    decreases |a|
  {
    if a == [] {
      assert a + b == b;
    } else {
      assert (a + b)[0] == a[0];
      assert (a + b)[1..] == a[1..] + b;
      FilterAppend(a[1..], b, k);
    }
  }

  lemma {:induction false} FilterNone(cmds: seq<Command>, k: CommandKind)
    requires forall c :: c in cmds ==> !OfKind(c, k)
    ensures Filter(cmds, k) == []
    decreases |cmds|
  {
    if cmds != [] {
      assert cmds[0] in cmds;
      assert forall c :: c in cmds[1..] ==> c in cmds;
      FilterNone(cmds[1..], k);
    }
  }

  /**
   * A list of transitions of distinct resources runs anywhere; afterwards each
   * resource it moves is settled in the state it was moved to, and the resources
   * of keep, which it does not name, stay settled where they were.
   */
  lemma {:induction false} MovesSettle(g: Gpu, cmds: seq<Command>, keep: set<Resource>)
    requires forall i :: 0 <= i < |cmds| ==> cmds[i].Transition? && cmds[i].resource !in keep
    requires forall i, j :: 0 <= i < j < |cmds| ==> cmds[i].resource != cmds[j].resource
    ensures Checked(g, cmds) && Dispatches(g, cmds) == []
    ensures forall r, s :: Transition(r, s) in cmds ==> Settled(Replay(g, cmds), r, s)
    ensures forall r, s :: r in keep && Settled(g, r, s) ==> Settled(Replay(g, cmds), r, s)
    decreases |cmds|
  {
    if cmds != [] {
      MovesSettle(Apply(g, cmds[0]), cmds[1..], keep + {cmds[0].resource});
    }
  }

  /**
   * A list of split-transition starts runs anywhere and leaves the resources of
   * keep, which it does not name, settled where they were.
   */
  lemma {:induction false} BeginsKeep(g: Gpu, cmds: seq<Command>, keep: set<Resource>)
    requires forall i :: 0 <= i < |cmds| ==> cmds[i].BeginTransition? && cmds[i].resource !in keep
    ensures Checked(g, cmds) && Dispatches(g, cmds) == []
    ensures forall r, s :: r in keep && Settled(g, r, s) ==> Settled(Replay(g, cmds), r, s)
    decreases |cmds|
  {
    if cmds != [] {
      BeginsKeep(Apply(g, cmds[0]), cmds[1..], keep);
    }
  }

  /** A command that only sets what later commands use: it moves no state and uses no resource itself. */
  predicate Setting(c: Command)
  {
    match c
    case Transition(_, _) => false
    case BeginTransition(_, _) => false
    case ClearDepth(_) => false
    case ClearColor(_) => false
    case DrawIndexed(_, _, _) => false
    case Dispatch(_, _, _) => false
    case _ => true
  }

  /** A setting needs nothing, dispatches nothing and moves no usage state or split transition. */
  lemma SettingApply(g: Gpu, c: Command)
    requires Setting(c)
    ensures Ready(g, c) && !c.Dispatch? && Apply(g, c).usage == g.usage && Apply(g, c).pending == g.pending
  {
  }

  /** Three settings in a row run anywhere and have the effect of each in turn. */
  lemma SettingsThree(g: Gpu, a: Command, b: Command, c: Command)
    requires Setting(a) && Setting(b) && Setting(c)
    ensures Checked(g, [a, b, c]) && Dispatches(g, [a, b, c]) == []
    ensures Replay(g, [a, b, c]) == Apply(Apply(Apply(g, a), b), c)
  {
    SettingApply(g, a);
    SettingsTwo(Apply(g, a), b, c);
    assert [a, b, c][1..] == [b, c];
  }

  /** So do two. */
  lemma SettingsTwo(g: Gpu, a: Command, b: Command)
    requires Setting(a) && Setting(b)
    ensures Checked(g, [a, b]) && Dispatches(g, [a, b]) == []
    ensures Replay(g, [a, b]) == Apply(Apply(g, a), b)
  {
    SettingApply(g, a);
    SettingApply(Apply(g, a), b);
    var h := Apply(Apply(g, a), b);
    assert [a, b][1..] == [b] && [b][1..] == [];
    assert Checked(h, []) && Replay(h, []) == h && Dispatches(h, []) == [];
  }

  /** A dispatch changes no state and records what it runs with. */
  lemma DispatchRuns(g: Gpu, c: Command)
    requires c.Dispatch?
    ensures Checked(g, [c]) == DispatchReady(g) && Replay(g, [c]) == g
    ensures Dispatches(g, [c]) == [DispatchInfo(g.pso, g.constant, g.views)]
  {
    assert [c][1..] == [];
  }

  /** Clears change no state: a list of them runs wherever each of its targets is ready to be cleared. */
  lemma {:induction false} ClearsChecked(g: Gpu, cmds: seq<Command>)
    requires forall i :: 0 <= i < |cmds| ==> IsClear(cmds[i]) && Ready(g, cmds[i])
    ensures Checked(g, cmds) && Dispatches(g, cmds) == [] && Replay(g, cmds) == g
    decreases |cmds|
  {
    if cmds != [] {
      ClearsChecked(g, cmds[1..]);
    }
  }

  /** The material of the last material bind in cmds, if any. */
  function LastBound(cmds: seq<Command>): Option<nat>
    decreases |cmds|
  {
    if cmds == [] then None
    else if IsBind(cmds[|cmds| - 1]) then Some(cmds[|cmds| - 1].material)
    else LastBound(cmds[..|cmds| - 1])
  }

  /** The last bind of a + b is b's last bind, or a's when b binds nothing. */
  lemma {:induction false} LastBoundAppend(a: seq<Command>, b: seq<Command>)
    ensures LastBound(a + b) == if LastBound(b).Some? then LastBound(b) else LastBound(a)
    decreases |b|
  {
    if b == [] {
      assert a + b == a;
    } else {
      assert (a + b)[..|a + b| - 1] == a + b[..|b| - 1];
      LastBoundAppend(a, b[..|b| - 1]);
    }
  }

  /** A draw loop's commands other than the pipeline choice. */
  predicate DrawCall(c: Command)
  {
    || c.SetIndexBuffer? || c.SetVertexBuffer? || c.DrawIndexed?
    || c.SetMaterialTable? || (c.SetMaterialDescriptors? && c.count <= MODEL_SRV_COUNT)
  }

  /** The commands a model's draw loop issues once its pipeline is chosen. */
  predicate DrawSide(c: Command)
  {
    c.SetPipelineState? || DrawCall(c)
  }

  /**
   * h differs from g only in the pipeline and in material textures that replaced
   * registers below MODEL_SRV_COUNT: states, targets, UAV and CBV are the same,
   * h's registers are some of g's, and all of g's registers from MODEL_SRV_COUNT up remain.
   */
  predicate Steady(g: Gpu, h: Gpu)
  {
    && h.usage == g.usage && h.pending == g.pending
    && h.colour == g.colour && h.depth == g.depth && h.depthReadOnly == g.depthReadOnly
    && h.uav == g.uav && h.cbv == g.cbv && h.constant == g.constant
    && (forall k :: k in h.views ==> k in g.views && h.views[k] == g.views[k])
    && (forall k :: k in g.views && k >= MODEL_SRV_COUNT ==> k in h.views)
  }

  /** One command of a draw loop keeps the GPU steady. */
  lemma ApplyDrawSide(g: Gpu, c: Command)
    requires DrawSide(c)
    ensures Steady(g, Apply(g, c))
  {
  }

  /** Steadiness composes, and a steady state keeps a draw ready. */
  lemma SteadyCompose(g: Gpu, h: Gpu, k: Gpu)
    requires Steady(g, h) && Steady(h, k)
    ensures Steady(g, k)
    ensures DrawReady(g) ==> DrawReady(h)
  {
  }

  /** A draw loop's commands run wherever a draw may run, and change nothing a draw depends on but materials. */
  lemma {:induction false} DrawSideChecked(g: Gpu, cmds: seq<Command>)
    requires DrawReady(g)
    requires forall c :: c in cmds ==> DrawSide(c)
    ensures Checked(g, cmds) && Dispatches(g, cmds) == []
    ensures Steady(g, Replay(g, cmds)) && DrawReady(Replay(g, cmds))
    decreases |cmds|
  {
    if cmds != [] {
      assert cmds[0] in cmds;
      var h := Apply(g, cmds[0]);
      ApplyDrawSide(g, cmds[0]);
      SteadyCompose(g, h, h);
      assert forall c :: c in cmds[1..] ==> c in cmds;
      DrawSideChecked(h, cmds[1..]);
      SteadyCompose(g, h, Replay(h, cmds[1..]));
    }
  }
}

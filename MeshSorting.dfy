// The model renderer's PSO list (Renderer::GetPSO and the depth-only PSOs
// created at initialisation) and its mesh sorter (Renderer::MeshSorter):
// AddMesh routes a mesh to sort keys of the Z, opaque or transparent pass,
// Sort orders the keys, and RenderMeshes walks the passes in order, drawing
// each pass's run of keys. Draw calls go to a GraphicsContext's command log.
module MeshSorting {
  import opened Wrappers
  import opened AlignMath
  import opened SortKeys
  import opened GpuContext
  import Descriptors

  // PSOFlags: what a mesh's vertices carry and how it is blended.
  const HAS_POSITION: bv16 := 0x001
  const HAS_NORMAL: bv16 := 0x002
  const HAS_TANGENT: bv16 := 0x004
  const HAS_UV0: bv16 := 0x008
  const HAS_UV1: bv16 := 0x010
  const ALPHA_BLEND: bv16 := 0x020
  const ALPHA_TEST: bv16 := 0x040
  const TWO_SIDED: bv16 := 0x080
  const HAS_SKIN: bv16 := 0x100

  /** Bit test for a single-bit flag. */
  predicate HasFlag(flags: bv16, bit: bv16) {
    flags & bit == bit
  }

  // ---------------------------------------------------------------------
  // The PSO list.

  /** The parts of a colour PSO that the flags select: vertex layout and shaders, blending, culling. */
  datatype Shape = Shape(tangent: bool, uv0: bool, uv1: bool, skinned: bool, alphaBlend: bool, twoSided: bool)

  /**
   * A PSO description. Two PSOs are the same object exactly when their
   * descriptions are equal, as the PSO cache hands out one object per description.
   * A colour PSO has read-write depth (read-only when alpha blended), or,
   * with testEqual, the depth-equal test used after a Z pre-pass.
   */
  datatype PsoDesc =
    | DepthOnly(skinned: bool, cutout: bool, shadow: bool)
    | Color(shape: Shape, testEqual: bool)

  /** The eight depth-only PSOs in the order initialisation pushes them: depth, then shadow. */
  function DepthPsos(): seq<PsoDesc> {
    [DepthOnly(false, false, false), DepthOnly(false, true, false), DepthOnly(true, false, false), DepthOnly(true, true, false),
     DepthOnly(false, false, true), DepthOnly(false, true, true), DepthOnly(true, false, true), DepthOnly(true, true, true)]
  }

  function ShapeOf(flags: bv16): Shape {
    Shape(HasFlag(flags, HAS_TANGENT), HasFlag(flags, HAS_UV0), HasFlag(flags, HAS_UV1),
          HasFlag(flags, HAS_SKIN), HasFlag(flags, ALPHA_BLEND), HasFlag(flags, TWO_SIDED))
  }

  /** depthPSO of AddMesh: 2 for skinned meshes plus 1 for alpha-tested ones. */
  function DepthPsoIndex(flags: bv16): (r: nat)
    ensures r <= 3
  {
    (if HasFlag(flags, HAS_SKIN) then 2 else 0) + (if HasFlag(flags, ALPHA_TEST) then 1 else 0)
  }

  /** depthPSO, and depthPSO + 4 for shadows, name the depth-only PSO for the mesh's skinning and cutout. */
  lemma DepthSlotsMatch(psos: seq<PsoDesc>, flags: bv16, shadow: bool)
    requires |psos| >= 8 && psos[..8] == DepthPsos()
    ensures psos[DepthPsoIndex(flags) + (if shadow then 4 else 0)]
         == DepthOnly(HasFlag(flags, HAS_SKIN), HasFlag(flags, ALPHA_TEST), shadow)
  {
    assert psos[DepthPsoIndex(flags) + (if shadow then 4 else 0)] == psos[..8][DepthPsoIndex(flags) + (if shadow then 4 else 0)];
  }

  class PsoLibrary {
    var psos: seq<PsoDesc>

    /**
     * The depth-only PSOs first; after them colour PSOs in pairs, the plain
     * one at an even index and its depth-equal twin right after it; at most
     * 256 entries so that every index fits a byte.
     */
    ghost predicate Valid()
      reads this
    {
      8 <= |psos| <= 256 && |psos| % 2 == 0 && psos[..8] == DepthPsos() &&
      (forall j :: 8 <= j < |psos| ==> psos[j].Color? && (psos[j].testEqual <==> j % 2 == 1)) &&
      (forall j :: 8 <= j < |psos| && j % 2 == 1 ==> psos[j - 1] == psos[j].(testEqual := false))
    }

    /** Initialisation of the PSO list: the eight depth-only PSOs. */
    constructor ()
      ensures Valid() && psos == DepthPsos()
    {
      psos := DepthPsos();
    }

    /**
     * GetPSO: the index of the colour PSO for flags, appending it and its
     * depth-equal twin when it is not yet in the list.
     */
    method GetPSO(flags: bv16) returns (index: nat)
      requires Valid()
      requires HasFlag(flags, HAS_POSITION) && HasFlag(flags, HAS_NORMAL)
      requires Color(ShapeOf(flags), false) in psos || |psos| + 2 <= 256
      modifies this
      ensures Valid()
      ensures 8 <= index < 255 && index + 1 < |psos|
      ensures psos[index] == Color(ShapeOf(flags), false) && psos[index + 1] == Color(ShapeOf(flags), true)
      ensures forall j :: 0 <= j < index ==> psos[j] != Color(ShapeOf(flags), false)
      ensures old(Color(ShapeOf(flags), false) in psos) ==> psos == old(psos)
      ensures old(Color(ShapeOf(flags), false) !in psos) ==>
                psos == old(psos) + [Color(ShapeOf(flags), false), Color(ShapeOf(flags), true)] && index == old(|psos|)
    {
      var desc := Color(ShapeOf(flags), false);
      assert forall j :: 0 <= j < 8 ==> psos[j] == psos[..8][j];
      var i := 0;
      while i < |psos|
        invariant i <= |psos|
        invariant forall j :: 0 <= j < i ==> psos[j] != desc
      {
        if psos[i] == desc {
          return i;
        }
        i := i + 1;
      }
      var twin := Color(ShapeOf(flags), true);
      // The depth-equal twin cannot be present without its plain PSO right before it.
      assert forall j :: 0 <= j < |psos| ==> psos[j] != twin by {
        forall j | 0 <= j < |psos|
          ensures psos[j] != twin
        {
          if j < 8 {
            assert psos[j] == psos[..8][j];
          } else if j % 2 == 1 {
            assert psos[j - 1] != desc;
          }
        }
      }
      psos := psos + [desc, twin];
      index := |psos| - 2;
      assert psos[..8] == old(psos)[..8];
    }
  }

  // ---------------------------------------------------------------------
  // Meshes and sort keys.

  datatype MeshDraw = MeshDraw(primCount: nat, startIndex: nat, baseVertex: nat)

  /** The fields of a mesh record that sorting and drawing read (offsets are relative to the model's buffer). */
  datatype Mesh = Mesh(
    vbOffset: nat, vbSize: nat, vbDepthOffset: nat, vbDepthSize: nat,
    ibOffset: nat, ibSize: nat, vbStride: nat, ibFormat: nat,
    srvTable: nat, samplerTable: nat, psoFlags: bv16, pso: nat,
    numJoints: nat, startJoint: nat, draws: seq<MeshDraw>)

  /** What AddMesh keeps per mesh; hasSkeleton says whether a joint array was passed. */
  datatype SortObject = SortObject(mesh: Mesh, hasSkeleton: bool, meshCbv: nat, materialCbv: nat, bufferPtr: nat)

  datatype BatchType = DefaultBatch | ShadowBatch

  /**
   * The keys AddMesh pushes, in push order, for a mesh at distance bits dist
   * when objectCount objects are already held. objectIdx and psoIdx are the
   * bitfields' truncations of the values assigned to them.
   */
  function NewKeys(batch: BatchType, mesh: Mesh, dist: nat, objectCount: nat, separateZPass: bool): seq<nat>
    requires dist < KEY_SPAN
  {
    var obj := objectCount % OBJECT_SPAN;
    var depthPso := DepthPsoIndex(mesh.psoFlags);
    if batch == ShadowBatch then
      if HasFlag(mesh.psoFlags, ALPHA_BLEND) then []
      else [Pack(SortKey(obj, depthPso + 4, dist, Z_PASS))]
    else if HasFlag(mesh.psoFlags, ALPHA_BLEND) then
      [Pack(SortKey(obj, mesh.pso % PSO_SPAN, Complement(dist), TRANSPARENT_PASS))]
    else if separateZPass || HasFlag(mesh.psoFlags, ALPHA_TEST) then
      [Pack(SortKey(obj, depthPso, dist, Z_PASS)), Pack(SortKey(obj, (mesh.pso + 1) % PSO_SPAN, dist, OPAQUE_PASS))]
    else
      [Pack(SortKey(obj, mesh.pso % PSO_SPAN, dist, OPAQUE_PASS))]
  }

  /** Every new key is a 64-bit value of one of the three passes naming the new object. */
  lemma NewKeysIndexed(batch: BatchType, mesh: Mesh, dist: nat, objectCount: nat, separateZPass: bool)
    requires dist < KEY_SPAN
    ensures var keys := NewKeys(batch, mesh, dist, objectCount, separateZPass);
      AllKeys(keys) &&
      forall i :: 0 <= i < |keys| ==> Unpack(keys[i]).objectIdx == objectCount % OBJECT_SPAN && PassOf(keys[i]) < NUM_PASSES
  {
    var obj := objectCount % OBJECT_SPAN;
    var depthPso := DepthPsoIndex(mesh.psoFlags);
    var keys := NewKeys(batch, mesh, dist, objectCount, separateZPass);
    if batch == ShadowBatch {
      if !HasFlag(mesh.psoFlags, ALPHA_BLEND) {
        var k := SortKey(obj, depthPso + 4, dist, Z_PASS);
        KeyReadBack(k);
        assert keys == [Pack(k)];
      }
    } else if HasFlag(mesh.psoFlags, ALPHA_BLEND) {
      var k := SortKey(obj, mesh.pso % PSO_SPAN, Complement(dist), TRANSPARENT_PASS);
      KeyReadBack(k);
      assert keys == [Pack(k)];
    } else if separateZPass || HasFlag(mesh.psoFlags, ALPHA_TEST) {
      var k0 := SortKey(obj, depthPso, dist, Z_PASS);
      var k1 := SortKey(obj, (mesh.pso + 1) % PSO_SPAN, dist, OPAQUE_PASS);
      KeyReadBack(k0);
      KeyReadBack(k1);
      assert keys == [Pack(k0), Pack(k1)];
    } else {
      var k := SortKey(obj, mesh.pso % PSO_SPAN, dist, OPAQUE_PASS);
      KeyReadBack(k);
      assert keys == [Pack(k)];
    }
  }

  /** A packed key of one of the three passes reads back its object and pass. */
  lemma KeyReadBack(k: SortKey)
    requires Fits(k) && k.passID < NUM_PASSES
    ensures Pack(k) < VALUE_SPAN && Unpack(Pack(k)).objectIdx == k.objectIdx && PassOf(Pack(k)) < NUM_PASSES
  {
    UnpackPack(k);
  }

  /**
   * What each pushed key says once read back through the bitfields: a
   * shadow batch drops alpha-blended meshes and otherwise adds one Z key on
   * PSO depthPSO + 4; a default batch gives an alpha-blended mesh one
   * transparent key on the complemented distance, gives a mesh with a Z
   * pre-pass or alpha test a Z key on depthPSO and an opaque key on pso + 1,
   * and gives any other mesh one opaque key; every key names the new object.
   */
  lemma RoutedKeys(batch: BatchType, mesh: Mesh, dist: nat, objectCount: nat, separateZPass: bool)
    requires dist < KEY_SPAN
    ensures var keys := NewKeys(batch, mesh, dist, objectCount, separateZPass);
      AllKeys(keys) &&
      (batch == ShadowBatch && HasFlag(mesh.psoFlags, ALPHA_BLEND) ==> keys == []) &&
      (batch == ShadowBatch && !HasFlag(mesh.psoFlags, ALPHA_BLEND) ==>
         |keys| == 1 && Unpack(keys[0]).passID == Z_PASS &&
         Unpack(keys[0]).psoIdx == DepthPsoIndex(mesh.psoFlags) + 4 && Unpack(keys[0]).key == dist) &&
      (batch == DefaultBatch && HasFlag(mesh.psoFlags, ALPHA_BLEND) ==>
         |keys| == 1 && Unpack(keys[0]).passID == TRANSPARENT_PASS &&
         Unpack(keys[0]).psoIdx == mesh.pso % PSO_SPAN && Unpack(keys[0]).key == KEY_SPAN - 1 - dist) &&
      (batch == DefaultBatch && !HasFlag(mesh.psoFlags, ALPHA_BLEND) && (separateZPass || HasFlag(mesh.psoFlags, ALPHA_TEST)) ==>
         |keys| == 2 && Unpack(keys[0]).passID == Z_PASS && Unpack(keys[0]).psoIdx == DepthPsoIndex(mesh.psoFlags) &&
         Unpack(keys[1]).passID == OPAQUE_PASS && Unpack(keys[1]).psoIdx == (mesh.pso + 1) % PSO_SPAN &&
         Unpack(keys[0]).key == Unpack(keys[1]).key == dist) &&
      (batch == DefaultBatch && !HasFlag(mesh.psoFlags, ALPHA_BLEND) && !separateZPass && !HasFlag(mesh.psoFlags, ALPHA_TEST) ==>
         |keys| == 1 && Unpack(keys[0]).passID == OPAQUE_PASS &&
         Unpack(keys[0]).psoIdx == mesh.pso % PSO_SPAN && Unpack(keys[0]).key == dist)
  {
    var obj := objectCount % OBJECT_SPAN;
    var depthPso := DepthPsoIndex(mesh.psoFlags);
    if batch == ShadowBatch {
      if !HasFlag(mesh.psoFlags, ALPHA_BLEND) {
        UnpackPack(SortKey(obj, depthPso + 4, dist, Z_PASS));
      }
    } else if HasFlag(mesh.psoFlags, ALPHA_BLEND) {
      UnpackPack(SortKey(obj, mesh.pso % PSO_SPAN, Complement(dist), TRANSPARENT_PASS));
    } else if separateZPass || HasFlag(mesh.psoFlags, ALPHA_TEST) {
      UnpackPack(SortKey(obj, depthPso, dist, Z_PASS));
      UnpackPack(SortKey(obj, (mesh.pso + 1) % PSO_SPAN, dist, OPAQUE_PASS));
    } else {
      UnpackPack(SortKey(obj, mesh.pso % PSO_SPAN, dist, OPAQUE_PASS));
    }
  }

  /** Vertex stride of the depth-only stream: position, plus UV for alpha test, plus skinning data. */
  function DepthStride(mesh: Mesh): nat {
    (if HasFlag(mesh.psoFlags, ALPHA_TEST) then 16 else 12) + (if mesh.numJoints > 0 then 16 else 0)
  }

  /** One DrawIndexed per draw of a mesh, in order. */
  function DrawCalls(draws: seq<MeshDraw>): (r: seq<Command>)
    ensures |r| == |draws|
    decreases |draws|
  {
    if draws == [] then []
    else
      var d := draws[|draws| - 1];
      DrawCalls(draws[..|draws| - 1]) + [DrawIndexed(d.primCount, d.startIndex, d.baseVertex)]
  }

  lemma {:induction false} DrawCallsPlain(draws: seq<MeshDraw>)
    ensures forall c :: c in DrawCalls(draws) ==> c.Plain() && c.DrawIndexed?
    decreases |draws|
  {
    if draws != [] {
      DrawCallsPlain(draws[..|draws| - 1]);
    }
  }

  /** The vertex buffer bound for an object in pass q: the depth-only stream in the Z pass. */
  function VertexView(obj: SortObject, q: nat): BufferView {
    var mesh := obj.mesh;
    if q == Z_PASS then View(obj.bufferPtr + mesh.vbDepthOffset, mesh.vbDepthSize, DepthStride(mesh))
    else View(obj.bufferPtr + mesh.vbOffset, mesh.vbSize, mesh.vbStride)
  }

  /** The state an object's draws need: its constants, material tables, joints, PSO and buffers. */
  function Bindings(obj: SortObject, psoIdx: nat, q: nat): seq<Command> {
    var mesh := obj.mesh;
    [SetMeshConstants(obj.meshCbv, obj.materialCbv), SetMaterialTables(mesh.srvTable, mesh.samplerTable)]
    + (if mesh.numJoints > 0 then [SetSkinMatrices(mesh.numJoints, mesh.startJoint)] else [])
    + [SetPipelineState(Listed(psoIdx)), SetVertexBuffer(VertexView(obj, q)),
       SetIndexBuffer(View(obj.bufferPtr + mesh.ibOffset, mesh.ibSize, mesh.ibFormat))]
  }

  /** The commands recorded for one key drawn in pass q. */
  function KeyCommands(objects: seq<SortObject>, v: nat, q: nat): seq<Command>
    requires ObjectOf(v) < |objects|
  {
    Bindings(objects[ObjectOf(v)], PsoOf(v), q) + DrawCalls(objects[ObjectOf(v)].mesh.draws)
  }

  /** Every key is a 64-bit value of a pass below kNumPasses naming a held object. */
  predicate KeysIndexed(objects: seq<SortObject>, keys: seq<nat>) {
    AllKeys(keys) &&
    forall i :: 0 <= i < |keys| ==> PassOf(keys[i]) < NUM_PASSES && ObjectOf(keys[i]) < |objects|
  }

  /** Adding keys for a newly kept object keeps every key naming a held object. */
  lemma KeysIndexedGrow(objects: seq<SortObject>, keys: seq<nat>, more: seq<SortObject>, newKeys: seq<nat>)
    requires KeysIndexed(objects, keys) && AllKeys(newKeys)
    requires forall i :: 0 <= i < |newKeys| ==> PassOf(newKeys[i]) < NUM_PASSES && ObjectOf(newKeys[i]) < |objects + more|
    ensures KeysIndexed(objects + more, keys + newKeys)
  {
    var all := keys + newKeys;
    forall i | 0 <= i < |all|
      ensures all[i] < VALUE_SPAN && PassOf(all[i]) < NUM_PASSES && ObjectOf(all[i]) < |objects + more|
    {
      if i < |keys| {
        assert all[i] == keys[i];
      } else {
        assert all[i] == newKeys[i - |keys|];
      }
    }
  }

  predicate SkeletonsGiven(objects: seq<SortObject>) {
    forall i :: 0 <= i < |objects| ==> objects[i].mesh.numJoints > 0 ==> objects[i].hasSkeleton
  }

  lemma SkeletonsGrow(objects: seq<SortObject>, more: seq<SortObject>)
    ensures SkeletonsGiven(objects) && SkeletonsGiven(more) ==> SkeletonsGiven(objects + more)
  {
    if SkeletonsGiven(objects) && SkeletonsGiven(more) {
      forall i | 0 <= i < |objects + more|
        ensures (objects + more)[i].mesh.numJoints > 0 ==> (objects + more)[i].hasSkeleton
      {
        if i >= |objects| {
          assert (objects + more)[i] == more[i - |objects|];
        }
      }
    }
  }

  /** Sorting rearranges the keys, so they still name held objects. */
  lemma SortKeepsIndexed(objects: seq<SortObject>, keys: seq<nat>)
    requires KeysIndexed(objects, keys)
    ensures KeysIndexed(objects, SortValues(keys))
  {
    var sorted := SortValues(keys);
    forall i | 0 <= i < |sorted|
      ensures sorted[i] in keys
    {
      assert sorted[i] in multiset(sorted);
    }
  }

  /** The commands for the keys at indices [lo, hi), in index order. */
  function KeysCommands(objects: seq<SortObject>, keys: seq<nat>, lo: nat, hi: nat, q: nat): seq<Command>
    requires KeysIndexed(objects, keys) && lo <= hi <= |keys|
    decreases hi - lo
  {
    if hi == lo then []
    else KeysCommands(objects, keys, lo, hi - 1, q) + KeyCommands(objects, keys[hi - 1], q)
  }

  /** Every key of an indexed list names an object whose skinned mesh has its joints. */
  lemma KeyDrawable(objects: seq<SortObject>, keys: seq<nat>, i: nat)
    requires KeysIndexed(objects, keys) && SkeletonsGiven(objects) && i < |keys|
    ensures keys[i] < VALUE_SPAN && ObjectOf(keys[i]) < |objects|
    ensures objects[ObjectOf(keys[i])].mesh.numJoints > 0 ==> objects[ObjectOf(keys[i])].hasSkeleton
  {
  }

  /** Drawing one more key appends its commands. */
  lemma KeysStep(head: seq<Command>, objects: seq<SortObject>, keys: seq<nat>, lo: nat, i: nat, q: nat)
    requires KeysIndexed(objects, keys) && lo <= i < |keys|
    ensures head + KeysCommands(objects, keys, lo, i + 1, q)
         == (head + KeysCommands(objects, keys, lo, i, q)) + KeyCommands(objects, keys[i], q)
  {
  }

  /** Render-target setup at the start of a non-empty pass of a default batch. */
  function SetupCommands(batch: BatchType, q: nat, dsv: Resource, separateZPass: bool): (r: seq<Command>)
    ensures forall c :: c in r ==> c.Transition? || c.SetRenderTargets?
  {
    if batch == ShadowBatch then []
    else if q == Z_PASS then [Transition(dsv, DepthWrite), SetRenderTargets([], dsv, false)]
    else
      var depth := DepthState(q, separateZPass);
      [Transition(dsv, depth), Transition(SceneColor, RenderTarget), SetRenderTargets([SceneColor], dsv, depth == DepthRead)]
  }

  /** The depth state a pass of a default batch draws in: writable for the Z pass and for an opaque pass without one. */
  function DepthState(q: nat, separateZPass: bool): ResourceState {
    if q == Z_PASS || (q == OPAQUE_PASS && !separateZPass) then DepthWrite else DepthRead
  }

  /**
   * A pass's setup leaves the depth target in the pass's depth state and,
   * after the Z pass, the scene colour buffer a render target, with neither
   * still in a split transition.
   */
  lemma SetupReplay(states: map<Resource, ResourceState>, pending: map<Resource, ResourceState>,
                    batch: BatchType, q: nat, dsv: Resource, separateZPass: bool)
    ensures StatesAfter(states, SetupCommands(batch, q, dsv, separateZPass))
         == if batch == ShadowBatch then states
            else if q == Z_PASS then states[dsv := DepthWrite]
            else states[dsv := DepthState(q, separateZPass)][SceneColor := RenderTarget]
    ensures PendingAfter(pending, SetupCommands(batch, q, dsv, separateZPass))
         == if batch == ShadowBatch then pending
            else if q == Z_PASS then pending - {dsv}
            else pending - {dsv} - {SceneColor}
  {
    var cmds := SetupCommands(batch, q, dsv, separateZPass);
    if batch == DefaultBatch {
      var last := [cmds[|cmds| - 1]];
      var transitions := cmds[..|cmds| - 1];
      assert cmds == transitions + last;
      ReplaySplit(states, pending, transitions, last);
      PlainKeepsStates(StatesAfter(states, transitions), PendingAfter(pending, transitions), last);
      if q != Z_PASS {
        assert transitions == [cmds[0]] + [cmds[1]];
        ReplaySplit(states, pending, [cmds[0]], [cmds[1]]);
      }
    }
  }

  /** Start of pass q's run of keys: the number of keys of earlier passes. */
  function PassStart(keys: seq<nat>, q: nat): (r: nat)
    requires AllKeys(keys)
    ensures r <= |keys|
  {
    TallyBound(keys, 0, q);
    Tally(keys, 0, q)
  }

  /** The commands of pass q: nothing for an empty pass, else setup and then the pass's run of keys. */
  function PassCommands(batch: BatchType, dsv: Resource, separateZPass: bool,
                        objects: seq<SortObject>, keys: seq<nat>, q: nat): seq<Command>
    requires KeysIndexed(objects, keys)
  {
    var lo := PassStart(keys, q);
    var hi := PassStart(keys, q + 1);
    TallySplit(keys, 0, q, q + 1);
    if lo == hi then []
    else SetupCommands(batch, q, dsv, separateZPass) + KeysCommands(objects, keys, lo, hi, q)
  }

  /** A pass's commands are its setup followed by its run of keys, and an empty pass records nothing. */
  lemma PassPieces(head: seq<Command>, batch: BatchType, dsv: Resource, separateZPass: bool,
                   objects: seq<SortObject>, keys: seq<nat>, q: nat)
    requires KeysIndexed(objects, keys)
    ensures PassStart(keys, q + 1) == PassStart(keys, q) + Tally(keys, q, q + 1)
    ensures PassStart(keys, q) == PassStart(keys, q + 1) ==>
              head + PassCommands(batch, dsv, separateZPass, objects, keys, q) == head &&
              PassSetup(batch, dsv, separateZPass, keys, q) == []
    ensures PassStart(keys, q) != PassStart(keys, q + 1) ==>
              (head + SetupCommands(batch, q, dsv, separateZPass))
                + KeysCommands(objects, keys, PassStart(keys, q), PassStart(keys, q + 1), q)
              == head + PassCommands(batch, dsv, separateZPass, objects, keys, q) &&
              PassSetup(batch, dsv, separateZPass, keys, q) == SetupCommands(batch, q, dsv, separateZPass)
  {
    TallySplit(keys, 0, q, q + 1);
    var lo, hi := PassStart(keys, q), PassStart(keys, q + 1);
    var cmds := PassCommands(batch, dsv, separateZPass, objects, keys, q);
    if lo == hi {
      assert cmds == [];
      assert head + cmds == head;
    } else {
      var setup := SetupCommands(batch, q, dsv, separateZPass);
      var run := KeysCommands(objects, keys, lo, hi, q);
      assert cmds == setup + run;
      Regrouped(head, setup, run);
    }
  }

  /** Appending two pieces one after the other appends their concatenation. */
  lemma Regrouped(head: seq<Command>, a: seq<Command>, b: seq<Command>)
    ensures (head + a) + b == head + (a + b)
  {
  }

  /** The commands of passes from, ..., upto - 1, in order. */
  function PassesCommands(batch: BatchType, dsv: Resource, separateZPass: bool,
                          objects: seq<SortObject>, keys: seq<nat>, from: nat, upto: nat): seq<Command>
    requires KeysIndexed(objects, keys)
    decreases upto
  {
    if upto <= from then []
    else PassesCommands(batch, dsv, separateZPass, objects, keys, from, upto - 1)
         + PassCommands(batch, dsv, separateZPass, objects, keys, upto - 1)
  }

  /** The render-target setup pass q records: none for a pass without keys. */
  function PassSetup(batch: BatchType, dsv: Resource, separateZPass: bool, keys: seq<nat>, q: nat): seq<Command>
    requires AllKeys(keys)
  {
    if PassStart(keys, q) == PassStart(keys, q + 1) then [] else SetupCommands(batch, q, dsv, separateZPass)
  }

  /** The setups of passes from, ..., upto - 1, in order. */
  function PassesSetups(batch: BatchType, dsv: Resource, separateZPass: bool, keys: seq<nat>, from: nat, upto: nat): seq<Command>
    requires AllKeys(keys)
    decreases upto
  {
    if upto <= from then []
    else PassesSetups(batch, dsv, separateZPass, keys, from, upto - 1) + PassSetup(batch, dsv, separateZPass, keys, upto - 1)
  }

  /** Drawing one more pass appends its commands. */
  lemma PassesStep(head: seq<Command>, batch: BatchType, dsv: Resource, separateZPass: bool,
                   objects: seq<SortObject>, keys: seq<nat>, from: nat, q: nat)
    requires KeysIndexed(objects, keys) && from <= q
    ensures head + PassesCommands(batch, dsv, separateZPass, objects, keys, from, q + 1)
         == (head + PassesCommands(batch, dsv, separateZPass, objects, keys, from, q))
            + PassCommands(batch, dsv, separateZPass, objects, keys, q)
  {
  }

  /** Usage states after the setups of passes from, ..., upto - 1, one pass at a time. */
  function SetupStates(states: map<Resource, ResourceState>, batch: BatchType, dsv: Resource, separateZPass: bool,
                       keys: seq<nat>, from: nat, upto: nat): map<Resource, ResourceState>
    requires AllKeys(keys)
    decreases upto
  {
    if upto <= from then states
    else StatesAfter(SetupStates(states, batch, dsv, separateZPass, keys, from, upto - 1),
                     PassSetup(batch, dsv, separateZPass, keys, upto - 1))
  }

  /** Outstanding split transitions after the setups of passes from, ..., upto - 1, one pass at a time. */
  function SetupPending(pending: map<Resource, ResourceState>, batch: BatchType, dsv: Resource, separateZPass: bool,
                        keys: seq<nat>, from: nat, upto: nat): map<Resource, ResourceState>
    requires AllKeys(keys)
    decreases upto
  {
    if upto <= from then pending
    else PendingAfter(SetupPending(pending, batch, dsv, separateZPass, keys, from, upto - 1),
                      PassSetup(batch, dsv, separateZPass, keys, upto - 1))
  }

  /** One more pass continues the pass-by-pass replay. */
  lemma SetupsStep(states: map<Resource, ResourceState>, pending: map<Resource, ResourceState>,
                   batch: BatchType, dsv: Resource, separateZPass: bool, keys: seq<nat>, from: nat, q: nat)
    requires AllKeys(keys) && from <= q
    ensures SetupStates(states, batch, dsv, separateZPass, keys, from, q + 1)
         == StatesAfter(SetupStates(states, batch, dsv, separateZPass, keys, from, q), PassSetup(batch, dsv, separateZPass, keys, q))
    ensures SetupPending(pending, batch, dsv, separateZPass, keys, from, q + 1)
         == PendingAfter(SetupPending(pending, batch, dsv, separateZPass, keys, from, q), PassSetup(batch, dsv, separateZPass, keys, q))
  {
  }

  /** Pass-by-pass replay of the setups is the replay of all of them in order. */
  lemma {:induction false} SetupsReplay(states: map<Resource, ResourceState>, pending: map<Resource, ResourceState>,
                                        batch: BatchType, dsv: Resource, separateZPass: bool, keys: seq<nat>, from: nat, upto: nat)
    requires AllKeys(keys)
    ensures SetupStates(states, batch, dsv, separateZPass, keys, from, upto)
         == StatesAfter(states, PassesSetups(batch, dsv, separateZPass, keys, from, upto))
    ensures SetupPending(pending, batch, dsv, separateZPass, keys, from, upto)
         == PendingAfter(pending, PassesSetups(batch, dsv, separateZPass, keys, from, upto))
    decreases upto
  {
    if upto > from {
      var before := PassesSetups(batch, dsv, separateZPass, keys, from, upto - 1);
      var step := PassSetup(batch, dsv, separateZPass, keys, upto - 1);
      assert PassesSetups(batch, dsv, separateZPass, keys, from, upto) == before + step;
      SetupsReplay(states, pending, batch, dsv, separateZPass, keys, from, upto - 1);
      ReplaySplit(states, pending, before, step);
    }
  }

  /** A shadow batch starts by clearing its depth target and binding it alone. */
  function Preamble(batch: BatchType, dsv: Resource): seq<Command> {
    if batch == ShadowBatch then [Transition(dsv, DepthWrite), ClearDepth(dsv), SetRenderTargets([], dsv, false)]
    else []
  }

  /** A shadow batch ends by making its depth target readable by pixel shaders. */
  function Postamble(batch: BatchType, dsv: Resource): seq<Command> {
    if batch == ShadowBatch then [Transition(dsv, PixelShaderResource)] else []
  }

  /**
   * Once the keys are sorted, the run that pass q draws, [PassStart(q),
   * PassStart(q) + count of pass q), holds exactly the keys of pass q.
   */
  lemma {:induction false} SortedRunIsPass(objects: seq<SortObject>, keys: seq<nat>, q: nat, i: nat)
    requires KeysIndexed(objects, keys) && Sorted(keys) && i < |keys|
    ensures PassOf(keys[i]) == q <==> PassStart(keys, q) <= i < PassStart(keys, q) + Tally(keys, q, q + 1)
  {
    SortedPassBlock(keys, q, i);
  }

  /** All that RenderMeshes records when it draws passes from, ..., upto - 1. */
  function RenderLog(batch: BatchType, dsv: Resource, separateZPass: bool,
                     objects: seq<SortObject>, keys: seq<nat>, from: nat, upto: nat): seq<Command>
    requires KeysIndexed(objects, keys)
  {
    Preamble(batch, dsv) + PassesCommands(batch, dsv, separateZPass, objects, keys, from, upto) + Postamble(batch, dsv)
  }

  /** Everything RenderMeshes records that can change a resource state, in order. */
  function RenderTransitions(batch: BatchType, dsv: Resource, separateZPass: bool, keys: seq<nat>, from: nat, upto: nat): seq<Command>
    requires AllKeys(keys)
  {
    Preamble(batch, dsv) + PassesSetups(batch, dsv, separateZPass, keys, from, upto) + Postamble(batch, dsv)
  }

  /** ((a + b) + c) + d == a + ((b + c) + d), for any logs. */
  lemma AppendThree(a: seq<Command>, b: seq<Command>, c: seq<Command>, d: seq<Command>)
    ensures ((a + b) + c) + d == a + ((b + c) + d)
  {
  }

  /** The pieces RenderMeshes records and the states they lead to add up to its whole log and its transitions. */
  lemma RenderReplay(c0: seq<Command>, u0: map<Resource, ResourceState>, p0: map<Resource, ResourceState>,
                     batch: BatchType, dsv: Resource, separateZPass: bool, objects: seq<SortObject>, keys: seq<nat>,
                     from: nat, upto: nat)
    requires KeysIndexed(objects, keys)
    ensures ((c0 + Preamble(batch, dsv)) + PassesCommands(batch, dsv, separateZPass, objects, keys, from, upto))
              + Postamble(batch, dsv)
         == c0 + RenderLog(batch, dsv, separateZPass, objects, keys, from, upto)
    ensures StatesAfter(SetupStates(StatesAfter(u0, Preamble(batch, dsv)), batch, dsv, separateZPass, keys, from, upto),
                        Postamble(batch, dsv))
         == StatesAfter(u0, RenderTransitions(batch, dsv, separateZPass, keys, from, upto))
    ensures PendingAfter(SetupPending(PendingAfter(p0, Preamble(batch, dsv)), batch, dsv, separateZPass, keys, from, upto),
                         Postamble(batch, dsv))
         == PendingAfter(p0, RenderTransitions(batch, dsv, separateZPass, keys, from, upto))
  {
    var pre := Preamble(batch, dsv);
    var setups := PassesSetups(batch, dsv, separateZPass, keys, from, upto);
    var post := Postamble(batch, dsv);
    AppendThree(c0, pre, PassesCommands(batch, dsv, separateZPass, objects, keys, from, upto), post);
    SetupsReplay(StatesAfter(u0, pre), PendingAfter(p0, pre), batch, dsv, separateZPass, keys, from, upto);
    ReplaySplit(u0, p0, pre, setups);
    ReplaySplit(u0, p0, pre + setups, post);
  }

  lemma KeyCommandsPlain(objects: seq<SortObject>, v: nat, q: nat)
    requires ObjectOf(v) < |objects|
    ensures forall c :: c in KeyCommands(objects, v, q) ==> c.Plain()
  {
    DrawCallsPlain(objects[ObjectOf(v)].mesh.draws);
  }

  /** Drawing keys changes no resource state: the only transitions of a pass are in its setup. */
  lemma {:induction false} KeysCommandsPlain(objects: seq<SortObject>, keys: seq<nat>, lo: nat, hi: nat, q: nat)
    requires KeysIndexed(objects, keys) && lo <= hi <= |keys|
    ensures forall c :: c in KeysCommands(objects, keys, lo, hi, q) ==> c.Plain()
    decreases hi - lo
  {
    if hi > lo {
      KeysCommandsPlain(objects, keys, lo, hi - 1, q);
      KeyCommandsPlain(objects, keys[hi - 1], q);
    }
  }

  // ---------------------------------------------------------------------
  // Render targets, viewport and scissor.

  /** A colour or depth buffer bound by the sorter, with its size in pixels. */
  datatype Target = Target(resource: Resource, width: nat, height: nat)

  /** A viewport's origin and size (the depth range 0..1 is left out). */
  datatype Viewport = Viewport(x: nat, y: nat, width: nat, height: nat)

  /** A D3D12_RECT: its edges are signed 32-bit LONGs. */
  datatype Rect = Rect(left: int, top: int, right: int, bottom: int)

  /** The viewport RenderMeshes fills in when none was set: the whole depth target. */
  function FullViewport(depth: Target): Viewport {
    Viewport(0, 0, depth.width, depth.height)
  }

  /**
   * The scissor RenderMeshes fills in when no viewport was set, as written:
   * a shadow batch keeps a one-texel border, a default batch takes the width
   * for the bottom edge as well.  The edges are uint32 sizes (and, for the
   * shadow batch, uint32 differences) stored into the rectangle's LONG
   * fields, so a shadow target narrower than 2 gets a negative right edge.
   */
  function ScissorAsWritten(batch: BatchType, depth: Target): (r: Rect)
    requires depth.width < WORD32 && depth.height < WORD32
    ensures batch == ShadowBatch && depth.width < 0x8000_0002 && depth.height < 0x8000_0002 ==>
      r == Rect(1, 1, depth.width - 2, depth.height - 2)
    ensures batch == DefaultBatch && depth.width < 0x8000_0000 ==> r == Rect(0, 0, depth.width, depth.width)
  {
    if batch == ShadowBatch then
      Rect(1, 1, Descriptors.AsInt32(Descriptors.Wrap32(depth.width - 2)),
        Descriptors.AsInt32(Descriptors.Wrap32(depth.height - 2)))
    else Rect(0, 0, Descriptors.AsInt32(depth.width), Descriptors.AsInt32(depth.width))
  }

  /** The default scissor with the bottom edge taken from the height. */
  function DefaultScissor(batch: BatchType, depth: Target): Rect
    requires depth.width < WORD32 && depth.height < WORD32
  {
    if batch == ShadowBatch then ScissorAsWritten(batch, depth)
    else Rect(0, 0, Descriptors.AsInt32(depth.width), Descriptors.AsInt32(depth.height))
  }

  /** For a 1920 x 1080 target the default batch's scissor reaches row 1920. */
  lemma ScissorPastTarget()
    ensures var depth := Target(SceneDepth, 1920, 1080);
      ScissorAsWritten(DefaultBatch, depth).bottom > depth.height
  {
  }

  /** A shadow target one texel wide gets the LONG right edge -1, left of its left edge 1. */
  lemma ShadowScissorNegative(depth: Target)
    requires depth.width == 1 && depth.height < WORD32
    ensures ScissorAsWritten(ShadowBatch, depth).right == -1
  {
  }

  /**
   * The corrected default scissor is the whole target, and a shadow batch's
   * scissor lies inside its target with a one-texel border when the target is
   * at least 3 x 3.
   */
  lemma ScissorWithinTarget(batch: BatchType, depth: Target)
    requires depth.width < 0x8000_0000 && depth.height < 0x8000_0000
    requires batch == ShadowBatch ==> depth.width >= 3 && depth.height >= 3
    ensures var r := DefaultScissor(batch, depth);
      r.left <= r.right <= depth.width && r.top <= r.bottom <= depth.height
    ensures batch == DefaultBatch ==> DefaultScissor(batch, depth) == Rect(0, 0, depth.width, depth.height)
    ensures batch == ShadowBatch ==>
      DefaultScissor(batch, depth) == Rect(1, 1, depth.width - 2, depth.height - 2)
  {
  }

  class MeshSorter {
    const batchType: BatchType
    var sortObjects: seq<SortObject>
    var sortKeys: seq<nat>
    const passCounts: array<nat>
    var currentPass: nat
    var currentDraw: nat
    var renderTargets: seq<Target>
    var depthTarget: Option<Target>
    var viewport: Viewport
    var scissor: Rect

    /** The pass counters count the keys of each pass. */
    ghost predicate Counted()
      reads this`sortKeys, passCounts
    {
      passCounts.Length == NUM_PASSES && AllKeys(sortKeys) &&
      forall p :: 0 <= p < NUM_PASSES ==> passCounts[p] == Tally(sortKeys, p, p + 1)
    }

    /** Every key names a held object. */
    ghost predicate Indexed()
      reads this`sortKeys, this`sortObjects
    {
      KeysIndexed(sortObjects, sortKeys) && |sortObjects| <= OBJECT_SPAN
    }

    ghost predicate Valid()
      reads this, passCounts
    {
      Counted() && Indexed() && currentPass <= NUM_PASSES && |renderTargets| <= 8
    }

    /** The draw cursor sits at the start of the current pass's run. */
    ghost predicate InStep()
      reads this`sortKeys, this`currentDraw, this`currentPass
    {
      AllKeys(sortKeys) && currentDraw == Tally(sortKeys, 0, currentPass)
    }

    /** Every object whose mesh has joints was given a joint array. */
    ghost predicate SkeletonsPresent()
      reads this`sortObjects
    {
      SkeletonsGiven(sortObjects)
    }

    constructor (batch: BatchType)
      ensures Valid() && InStep() && SkeletonsPresent()
      ensures batchType == batch && sortObjects == [] && sortKeys == []
      ensures currentPass == Z_PASS && currentDraw == 0 && renderTargets == [] && depthTarget == None
      ensures viewport == Viewport(0, 0, 0, 0) && scissor == Rect(0, 0, 0, 0)
      ensures fresh(passCounts) && passCounts[..] == [0, 0, 0]
    {
      batchType := batch;
      sortObjects := [];
      sortKeys := [];
      passCounts := new nat[NUM_PASSES](_ => 0);
      currentPass := Z_PASS;
      currentDraw := 0;
      renderTargets := [];
      depthTarget := None;
      viewport := Viewport(0, 0, 0, 0);
      scissor := Rect(0, 0, 0, 0);
    }

    method SetViewport(v: Viewport)
      modifies this`viewport
      ensures viewport == v
    {
      viewport := v;
    }

    method SetScissor(r: Rect)
      modifies this`scissor
      ensures scissor == r
    {
      scissor := r;
    }

    method AddRenderTarget(rtv: Target)
      requires Valid() && |renderTargets| < 8
      modifies this`renderTargets
      ensures Valid() && renderTargets == old(renderTargets) + [rtv]
    {
      renderTargets := renderTargets + [rtv];
    }

    method SetDepthStencilTarget(dsv: Target)
      modifies this`depthTarget
      ensures depthTarget == Some(dsv)
    {
      depthTarget := Some(dsv);
    }

    /** Pushes one key and counts it in its pass. */
    method PushKey(k: SortKey)
      requires Counted() && Fits(k) && k.passID < NUM_PASSES
      modifies this`sortKeys, passCounts
      ensures Counted()
      ensures sortKeys == old(sortKeys) + [Pack(k)]
      ensures forall p :: 0 <= p < NUM_PASSES ==> passCounts[p] == old(passCounts[p]) + (if p == k.passID then 1 else 0)
    {
      var v := Pack(k);
      UnpackPack(k);
      assert PassOf(v) == Unpack(v).passID == k.passID;
      ghost var keys := sortKeys;
      ghost var counts := passCounts[..];
      sortKeys := sortKeys + [v];
      passCounts[k.passID] := passCounts[k.passID] + 1;
      forall p | 0 <= p < NUM_PASSES
        ensures passCounts[p] == Tally(sortKeys, p, p + 1)
      {
        TallyPush(keys, v, p, p + 1);
        assert counts[p] == Tally(keys, p, p + 1);
        if p == k.passID {
          assert passCounts[p] == counts[p] + 1;
        } else {
          assert passCounts[p] == counts[p];
        }
      }
    }

    /**
     * AddMesh: pushes the mesh's keys (see NewKeys and RoutedKeys), counts
     * them per pass and keeps the object, except that a shadow batch ignores
     * alpha-blended meshes altogether.
     */
    method AddMesh(mesh: Mesh, dist: nat, meshCbv: nat, materialCbv: nat, bufferPtr: nat,
                   hasSkeleton: bool, separateZPass: bool)
      requires Valid() && dist < KEY_SPAN && |sortObjects| < OBJECT_SPAN
      modifies this`sortKeys, this`sortObjects, passCounts
      ensures Valid()
      ensures sortKeys == old(sortKeys) + NewKeys(batchType, mesh, dist, old(|sortObjects|), separateZPass)
      ensures batchType == ShadowBatch && HasFlag(mesh.psoFlags, ALPHA_BLEND) ==> sortObjects == old(sortObjects)
      ensures !(batchType == ShadowBatch && HasFlag(mesh.psoFlags, ALPHA_BLEND)) ==>
                sortObjects == old(sortObjects) + [SortObject(mesh, hasSkeleton, meshCbv, materialCbv, bufferPtr)]
      ensures old(SkeletonsPresent()) && (mesh.numJoints > 0 ==> hasSkeleton) ==> SkeletonsPresent()
      ensures currentPass == Z_PASS && currentDraw == 0 ==> InStep()
    {
      ghost var keys := NewKeys(batchType, mesh, dist, |sortObjects|, separateZPass);
      NewKeysIndexed(batchType, mesh, dist, |sortObjects|, separateZPass);
      var kept := PushMeshKeys(mesh, dist, separateZPass);
      var more := if kept then [SortObject(mesh, hasSkeleton, meshCbv, materialCbv, bufferPtr)] else [];
      KeysIndexedGrow(sortObjects, old(sortKeys), more, keys);
      SkeletonsGrow(sortObjects, more);
      sortObjects := sortObjects + more;
      if currentPass == Z_PASS {
        TallyNone(sortKeys, 0, currentPass);
      }
    }

    /** The key-pushing part of AddMesh; false when a shadow batch drops an alpha-blended mesh. */
    method PushMeshKeys(mesh: Mesh, dist: nat, separateZPass: bool) returns (kept: bool)
      requires Counted() && dist < KEY_SPAN
      modifies this`sortKeys, passCounts
      ensures Counted()
      ensures sortKeys == old(sortKeys) + NewKeys(batchType, mesh, dist, |sortObjects|, separateZPass)
      ensures kept <==> !(batchType == ShadowBatch && HasFlag(mesh.psoFlags, ALPHA_BLEND))
    {
      var obj := |sortObjects| % OBJECT_SPAN;
      var alphaBlend := HasFlag(mesh.psoFlags, ALPHA_BLEND);
      var alphaTest := HasFlag(mesh.psoFlags, ALPHA_TEST);
      var depthPso := DepthPsoIndex(mesh.psoFlags);
      if batchType == ShadowBatch {
        if alphaBlend {
          return false;
        }
        PushKey(SortKey(obj, depthPso + 4, dist, Z_PASS));
      } else if alphaBlend {
        PushKey(SortKey(obj, mesh.pso % PSO_SPAN, Complement(dist), TRANSPARENT_PASS));
      } else if separateZPass || alphaTest {
        PushKey(SortKey(obj, depthPso, dist, Z_PASS));
        PushKey(SortKey(obj, (mesh.pso + 1) % PSO_SPAN, dist, OPAQUE_PASS));
      } else {
        PushKey(SortKey(obj, mesh.pso % PSO_SPAN, dist, OPAQUE_PASS));
      }
      return true;
    }

    /** Sort: the keys in ascending order of their 64-bit values. */
    method Sort()
      requires Valid()
      modifies this`sortKeys
      ensures Valid() && Sorted(sortKeys) && multiset(sortKeys) == multiset(old(sortKeys))
      ensures old(InStep()) ==> InStep()
    {
      forall p | 0 <= p < NUM_PASSES {
        SortValuesSpec(sortKeys, p, p + 1);
      }
      SortValuesSpec(sortKeys, 0, currentPass);
      SortKeepsIndexed(sortObjects, sortKeys);
      sortKeys := SortValues(sortKeys);
    }

    /** Records the commands for one key drawn in pass q (the body of the draw loop). */
    method DrawKey(ctx: GraphicsContext, v: nat, q: nat)
      requires ObjectOf(v) < |sortObjects|
      requires sortObjects[ObjectOf(v)].mesh.numJoints > 0 ==> sortObjects[ObjectOf(v)].hasSkeleton
      modifies ctx`commands
      ensures ctx.commands == old(ctx.commands) + KeyCommands(sortObjects, v, q)
    {
      var obj := sortObjects[ObjectOf(v)];
      Bind(ctx, obj, PsoOf(v), q);
      IssueDraws(ctx, obj.mesh.draws);
    }

    /** The bindings part of the draw loop's body. */
    static method Bind(ctx: GraphicsContext, obj: SortObject, psoIdx: nat, q: nat)
      requires obj.mesh.numJoints > 0 ==> obj.hasSkeleton
      modifies ctx`commands
      ensures ctx.commands == old(ctx.commands) + Bindings(obj, psoIdx, q)
    {
      var mesh := obj.mesh;
      ghost var head := ctx.commands;
      ctx.Issue(SetMeshConstants(obj.meshCbv, obj.materialCbv));
      ctx.Issue(SetMaterialTables(mesh.srvTable, mesh.samplerTable));
      if mesh.numJoints > 0 {
        ctx.Issue(SetSkinMatrices(mesh.numJoints, mesh.startJoint));
      }
      ghost var mid := ctx.commands;
      assert mid == head + ([SetMeshConstants(obj.meshCbv, obj.materialCbv), SetMaterialTables(mesh.srvTable, mesh.samplerTable)]
                            + (if mesh.numJoints > 0 then [SetSkinMatrices(mesh.numJoints, mesh.startJoint)] else []));
      ctx.Issue(SetPipelineState(Listed(psoIdx)));
      var vertices;
      if q == Z_PASS {
        var stride := if HasFlag(mesh.psoFlags, ALPHA_TEST) then 16 else 12;
        if mesh.numJoints > 0 {
          stride := stride + 16;
        }
        vertices := View(obj.bufferPtr + mesh.vbDepthOffset, mesh.vbDepthSize, stride);
      } else {
        vertices := View(obj.bufferPtr + mesh.vbOffset, mesh.vbSize, mesh.vbStride);
      }
      assert vertices == VertexView(obj, q);
      ctx.Issue(SetVertexBuffer(vertices));
      ctx.Issue(SetIndexBuffer(View(obj.bufferPtr + mesh.ibOffset, mesh.ibSize, mesh.ibFormat)));
      assert ctx.commands == mid + [SetPipelineState(Listed(psoIdx)), SetVertexBuffer(vertices),
                                    SetIndexBuffer(View(obj.bufferPtr + mesh.ibOffset, mesh.ibSize, mesh.ibFormat))];
    }

    /** The loop over a mesh's draws. */
    static method IssueDraws(ctx: GraphicsContext, draws: seq<MeshDraw>)
      modifies ctx`commands
      ensures ctx.commands == old(ctx.commands) + DrawCalls(draws)
    {
      ghost var head := ctx.commands;
      for i := 0 to |draws|
        invariant ctx.commands == head + DrawCalls(draws[..i])
      {
        assert draws[..i + 1][..i] == draws[..i];
        ctx.Issue(DrawIndexed(draws[i].primCount, draws[i].startIndex, draws[i].baseVertex));
      }
      assert draws[..|draws|] == draws;
    }

    /** The draw loop of one pass: keys currentDraw, ..., lastDraw - 1 in order. */
    method DrawRun(ctx: GraphicsContext, lastDraw: nat, q: nat)
      requires Indexed() && SkeletonsPresent() && currentDraw <= lastDraw <= |sortKeys|
      modifies this`currentDraw, ctx`commands
      ensures currentDraw == lastDraw
      ensures ctx.commands == old(ctx.commands) + KeysCommands(sortObjects, sortKeys, old(currentDraw), lastDraw, q)
    {
      ghost var first := currentDraw;
      ghost var head := ctx.commands;
      var keys := sortKeys;
      ghost var objects := sortObjects;
      var i := currentDraw;
      while i < lastDraw
        invariant first <= i <= lastDraw
        invariant ctx.commands == head + KeysCommands(objects, keys, first, i, q)
      {
        var v := keys[i];
        KeyDrawable(objects, keys, i);
        KeysStep(head, objects, keys, first, i, q);
        DrawKey(ctx, v, q);
        i := i + 1;
      }
      currentDraw := i;
    }

    /** The render-target setup of a non-empty pass. */
    method SetupPass(ctx: GraphicsContext, dsv: Resource, q: nat, separateZPass: bool)
      modifies ctx`commands, ctx`usage, ctx`transitioning
      ensures ctx.commands == old(ctx.commands) + SetupCommands(batchType, q, dsv, separateZPass)
      ensures ctx.usage == StatesAfter(old(ctx.usage), SetupCommands(batchType, q, dsv, separateZPass))
      ensures ctx.transitioning == PendingAfter(old(ctx.transitioning), SetupCommands(batchType, q, dsv, separateZPass))
    {
      SetupReplay(ctx.usage, ctx.transitioning, batchType, q, dsv, separateZPass);
      if batchType == DefaultBatch {
        if q == Z_PASS {
          ctx.TransitionResource(dsv, DepthWrite);
          ctx.Issue(SetRenderTargets([], dsv, false));
        } else {
          var depth := DepthState(q, separateZPass);
          ctx.TransitionResource(dsv, depth);
          ctx.TransitionResource(SceneColor, RenderTarget);
          ctx.Issue(SetRenderTargets([SceneColor], dsv, depth == DepthRead));
        }
      }
    }

    /** One round of the pass loop: draws the current pass if it has keys and moves to the next pass. */
    method RenderPass(ctx: GraphicsContext, dsv: Resource, separateZPass: bool)
      requires Counted() && Indexed() && InStep() && SkeletonsPresent() && currentPass < NUM_PASSES
      modifies this`currentPass, this`currentDraw, ctx`commands, ctx`usage, ctx`transitioning
      ensures InStep()
      ensures currentPass == old(currentPass) + 1
      ensures ctx.commands == old(ctx.commands) + PassCommands(batchType, dsv, separateZPass, sortObjects, sortKeys, old(currentPass))
      ensures ctx.usage == StatesAfter(old(ctx.usage), PassSetup(batchType, dsv, separateZPass, sortKeys, old(currentPass)))
      ensures ctx.transitioning == PendingAfter(old(ctx.transitioning), PassSetup(batchType, dsv, separateZPass, sortKeys, old(currentPass)))
    {
      ghost var q := currentPass;
      PassPieces(ctx.commands, batchType, dsv, separateZPass, sortObjects, sortKeys, q);
      var passCount := passCounts[currentPass];
      if passCount != 0 {
        SetupPass(ctx, dsv, currentPass, separateZPass);
        DrawRun(ctx, currentDraw + passCount, currentPass);
      }
      currentPass := currentPass + 1;
    }

    /** Fills in the whole-target viewport and the default scissor when no viewport was set. */
    method DefaultViewportAndScissor(depth: Target)
      requires depth.width < WORD32 && depth.height < WORD32
      modifies this`viewport, this`scissor
      ensures old(viewport.width) != 0 ==> viewport == old(viewport) && scissor == old(scissor)
      ensures old(viewport.width) == 0 ==> viewport == FullViewport(depth) && scissor == DefaultScissor(batchType, depth)
    {
      if viewport.width == 0 {
        viewport := FullViewport(depth);
        scissor := DefaultScissor(batchType, depth);
      }
    }

    /**
     * RenderMeshes: draws, in pass order, every pass from the current one up
     * to pass, each pass drawing its run of keys; a shadow batch first clears
     * its depth target and finally leaves it readable by pixel shaders.
     */
    method RenderMeshes(pass: nat, ctx: GraphicsContext, separateZPass: bool)
      requires Valid() && InStep() && SkeletonsPresent() && pass < NUM_PASSES
      requires depthTarget.Some? && depthTarget.value.width < WORD32 && depthTarget.value.height < WORD32
      requires batchType == DefaultBatch ==>
                 forall t :: t in renderTargets ==> t.width == depthTarget.value.width && t.height == depthTarget.value.height
      modifies this`currentPass, this`currentDraw, this`viewport, this`scissor, ctx`commands, ctx`usage, ctx`transitioning
      ensures Valid() && InStep()
      ensures currentPass == if old(currentPass) <= pass then pass + 1 else old(currentPass)
      ensures old(viewport.width) != 0 ==> viewport == old(viewport) && scissor == old(scissor)
      ensures old(viewport.width) == 0 ==>
                viewport == FullViewport(depthTarget.value) && scissor == DefaultScissor(batchType, depthTarget.value)
      ensures ctx.commands == old(ctx.commands) +
                RenderLog(batchType, depthTarget.value.resource, separateZPass, sortObjects, sortKeys, old(currentPass), currentPass)
      ensures ctx.usage == StatesAfter(old(ctx.usage),
                RenderTransitions(batchType, depthTarget.value.resource, separateZPass, sortKeys, old(currentPass), currentPass))
      ensures ctx.transitioning == PendingAfter(old(ctx.transitioning),
                RenderTransitions(batchType, depthTarget.value.resource, separateZPass, sortKeys, old(currentPass), currentPass))
      ensures batchType == ShadowBatch ==> ctx.InState(depthTarget.value.resource, PixelShaderResource)
    {
      var dsv := depthTarget.value.resource;
      ghost var from := currentPass;
      ghost var c0 := ctx.commands;
      ghost var u0 := ctx.usage;
      ghost var p0 := ctx.transitioning;
      BeginBatch(ctx, dsv);
      DefaultViewportAndScissor(depthTarget.value);
      RenderPasses(pass, ctx, dsv, separateZPass);
      EndBatch(ctx, dsv);
      RenderReplay(c0, u0, p0, batchType, dsv, separateZPass, sortObjects, sortKeys, from, currentPass);
    }

    /** The start of RenderMeshes: a shadow batch clears its depth target and binds it alone. */
    method BeginBatch(ctx: GraphicsContext, dsv: Resource)
      modifies ctx`commands, ctx`usage, ctx`transitioning
      ensures ctx.commands == old(ctx.commands) + Preamble(batchType, dsv)
      ensures ctx.usage == StatesAfter(old(ctx.usage), Preamble(batchType, dsv))
      ensures ctx.transitioning == PendingAfter(old(ctx.transitioning), Preamble(batchType, dsv))
    {
      if batchType == ShadowBatch {
        ghost var u := ctx.usage;
        ghost var p := ctx.transitioning;
        ctx.TransitionResource(dsv, DepthWrite);
        ctx.Issue(ClearDepth(dsv));
        ctx.Issue(SetRenderTargets([], dsv, false));
        ReplaySplit(u, p, [Transition(dsv, DepthWrite)], [ClearDepth(dsv), SetRenderTargets([], dsv, false)]);
        PlainKeepsStates(ctx.usage, ctx.transitioning, [ClearDepth(dsv), SetRenderTargets([], dsv, false)]);
      }
    }

    /** The end of RenderMeshes: a shadow batch leaves its depth target readable by pixel shaders. */
    method EndBatch(ctx: GraphicsContext, dsv: Resource)
      modifies ctx`commands, ctx`usage, ctx`transitioning
      ensures ctx.commands == old(ctx.commands) + Postamble(batchType, dsv)
      ensures ctx.usage == StatesAfter(old(ctx.usage), Postamble(batchType, dsv))
      ensures ctx.transitioning == PendingAfter(old(ctx.transitioning), Postamble(batchType, dsv))
      ensures batchType == ShadowBatch ==> ctx.InState(dsv, PixelShaderResource)
    {
      if batchType == ShadowBatch {
        ctx.TransitionResource(dsv, PixelShaderResource);
      }
    }

    /** The pass loop of RenderMeshes. */
    method RenderPasses(pass: nat, ctx: GraphicsContext, dsv: Resource, separateZPass: bool)
      requires Valid() && InStep() && SkeletonsPresent() && pass < NUM_PASSES
      modifies this`currentPass, this`currentDraw, ctx`commands, ctx`usage, ctx`transitioning
      ensures Valid() && InStep()
      ensures currentPass == if old(currentPass) <= pass then pass + 1 else old(currentPass)
      ensures ctx.commands == old(ctx.commands) +
                PassesCommands(batchType, dsv, separateZPass, sortObjects, sortKeys, old(currentPass), currentPass)
      ensures ctx.usage == SetupStates(old(ctx.usage), batchType, dsv, separateZPass, sortKeys, old(currentPass), currentPass)
      ensures ctx.transitioning == SetupPending(old(ctx.transitioning), batchType, dsv, separateZPass, sortKeys, old(currentPass), currentPass)
    {
      ghost var from := currentPass;
      ghost var head := ctx.commands;
      ghost var u0 := ctx.usage;
      ghost var p0 := ctx.transitioning;
      while currentPass <= pass
        invariant Valid() && InStep()
        invariant from <= currentPass && (if from <= pass then currentPass <= pass + 1 else currentPass == from)
        invariant Drawn(ctx, dsv, separateZPass, head, u0, p0, from)
        decreases NUM_PASSES - currentPass
      {
        NextPass(ctx, dsv, separateZPass, head, u0, p0, from);
      }
    }

    /** What the pass loop has recorded since pass from: the passes' commands and the states their setups lead to. */
    ghost predicate Drawn(ctx: GraphicsContext, dsv: Resource, separateZPass: bool, head: seq<Command>,
                          u0: map<Resource, ResourceState>, p0: map<Resource, ResourceState>, from: nat)
      reads this`sortKeys, this`sortObjects, this`currentPass, ctx`commands, ctx`usage, ctx`transitioning
    {
      KeysIndexed(sortObjects, sortKeys) && from <= currentPass &&
      ctx.commands == head + PassesCommands(batchType, dsv, separateZPass, sortObjects, sortKeys, from, currentPass) &&
      ctx.usage == SetupStates(u0, batchType, dsv, separateZPass, sortKeys, from, currentPass) &&
      ctx.transitioning == SetupPending(p0, batchType, dsv, separateZPass, sortKeys, from, currentPass)
    }

    /** One round of the pass loop, as the loop sees it. */
    method NextPass(ctx: GraphicsContext, dsv: Resource, separateZPass: bool, ghost head: seq<Command>,
                    ghost u0: map<Resource, ResourceState>, ghost p0: map<Resource, ResourceState>, ghost from: nat)
      requires Valid() && InStep() && SkeletonsPresent() && currentPass < NUM_PASSES
      requires Drawn(ctx, dsv, separateZPass, head, u0, p0, from)
      modifies this`currentPass, this`currentDraw, ctx`commands, ctx`usage, ctx`transitioning
      ensures Valid() && InStep() && currentPass == old(currentPass) + 1
      ensures Drawn(ctx, dsv, separateZPass, head, u0, p0, from)
    {
      ghost var q := currentPass;
      ghost var before := ctx.commands;
      PassesStep(head, batchType, dsv, separateZPass, sortObjects, sortKeys, from, q);
      SetupsStep(u0, p0, batchType, dsv, separateZPass, sortKeys, from, q);
      RenderPass(ctx, dsv, separateZPass);
      assert ctx.commands == before + PassCommands(batchType, dsv, separateZPass, sortObjects, sortKeys, q);
      assert ctx.commands == head + PassesCommands(batchType, dsv, separateZPass, sortObjects, sortKeys, from, q + 1);
    }
  }
}

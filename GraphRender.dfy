// The performance-graph bookkeeping of GraphRenderer.cpp: a PerfGraph keeps a
// ring buffer of CPU times per debug variable, and a GraphVector owns a list of
// graphs, at most MaxActiveGraphs of which are shown at once, each holding a
// colour key taken from a stack of free keys.
module GraphRender {

  const PERF_GRAPH_ERROR: real := 4294967295.0   // (float)0xFFFFFFFF
  const DEFAULT_PRESET_MAX: real := 30.0

  datatype Color = Color(r: real, g: real, b: real)

  /** The colour for key i: bits 0, 1 and 2 of i + 1 give red, green and blue, green and blue lifted by 0.3. */
  function PaletteColor(i: nat): (c: Color)
    ensures c.r == 0.0 || c.r == 1.0
    ensures c.g == 0.3 || c.g == 1.3
    ensures c.b == 0.3 || c.b == 1.3
  {
    var k := i + 1;
    Color((k % 2) as real, ((k / 2) % 2) as real + 0.3, ((k / 4) % 2) as real + 0.3)
  }

  /** Only three bits of the key are read, so the colours repeat every eight keys. */
  lemma {:induction false} PalettePeriodic(i: nat)
    ensures PaletteColor(i + 8) == PaletteColor(i)
  {
    var k := i + 1;
    assert (k + 8) / 2 == k / 2 + 4;
    assert (k + 8) / 4 == k / 4 + 2;
  }

  /** Keys 0..7 get eight different colours: the "up to 8 different colors" of the palette. */
  lemma {:induction false} PaletteDistinct(i: nat, j: nat)
    requires i < j < 8
    ensures PaletteColor(i) != PaletteColor(j)
  {
    var a, b := i + 1, j + 1;
    assert a % 8 == 4 * ((a / 4) % 2) + 2 * ((a / 2) % 2) + a % 2;
    assert b % 8 == 4 * ((b / 4) % 2) + 2 * ((b / 2) % 2) + b % 2;
    assert a % 8 != b % 8;
  }

  /** The keys 0, 1, ..., n - 1 in push order. */
  function KeysBelow(n: nat): (s: seq<int>)
    ensures |s| == n && forall i :: 0 <= i < n ==> s[i] == i
  {
    if n == 0 then [] else KeysBelow(n - 1) + [n - 1]
  }

  /** The larger of 0 and every element: what the preset-max scan computes. */
  function MaxOrZero(s: seq<real>): real
    decreases |s|
  {
    if s == [] then 0.0
    else
      var m := MaxOrZero(s[..|s| - 1]);
      if s[|s| - 1] > m then s[|s| - 1] else m
  }

  /** MaxOrZero is an upper bound of the elements and of 0, and is 0 or one of them. */
  lemma {:induction false} MaxOrZeroSpec(s: seq<real>)
    ensures MaxOrZero(s) >= 0.0
    ensures forall i :: 0 <= i < |s| ==> s[i] <= MaxOrZero(s)
    ensures MaxOrZero(s) == 0.0 || exists i :: 0 <= i < |s| && s[i] == MaxOrZero(s)
    decreases |s|
  {
    if s != [] {
      var init := s[..|s| - 1];
      MaxOrZeroSpec(init);
      assert forall i :: 0 <= i < |init| ==> s[i] == init[i];
      if MaxOrZero(init) != 0.0 && MaxOrZero(s) == MaxOrZero(init) {
        var k :| 0 <= k < |init| && init[k] == MaxOrZero(init);
        assert s[k] == MaxOrZero(s);
      }
    }
  }

  /**
   * The free keys on the stack and the keys held by shown graphs are all
   * different keys below max.
   */
  ghost predicate KeysApart(stack: seq<int>, held: map<int, int>, max: int) {
    && (forall i, j :: 0 <= i < j < |stack| ==> stack[i] != stack[j])
    && (forall i :: 0 <= i < |stack| ==> 0 <= stack[i] < max)
    && (forall i :: i in held ==> 0 <= held[i] < max && held[i] !in stack)
    && (forall i, j :: i in held && j in held && i != j ==> held[i] != held[j])
  }

  /** Taking the top key for graph id keeps the keys apart. */
  lemma PopKeepsApart(stack: seq<int>, held: map<int, int>, max: int, id: int)
    requires KeysApart(stack, held, max) && |stack| > 0 && id !in held
    ensures KeysApart(stack[..|stack| - 1], held[id := stack[|stack| - 1]], max)
  {
  }

  /** Returning the key of graph id to the stack keeps the keys apart. */
  lemma PushKeepsApart(stack: seq<int>, held: map<int, int>, max: int, id: int)
    requires KeysApart(stack, held, max) && id in held
    ensures KeysApart(stack + [held[id]], held - {id}, max)
  {
  }

  /** One graph: its display state and its ring buffer of CPU times (debug variable by node). */
  class PerfGraph {
    var nodeCount: nat
    var debugVarCount: nat
    var isGraphed: bool
    var color: Color
    var colorKey: nat
    var times: array2<real>

    constructor (nodeCount: nat, debugVarCount: nat, color: Color, isGraphed: bool)
      ensures this.nodeCount == nodeCount && this.debugVarCount == debugVarCount
      ensures this.color == color && this.isGraphed == isGraphed
      ensures fresh(times) && times.Length0 == debugVarCount && times.Length1 == nodeCount
    {
      this.nodeCount := nodeCount;
      this.debugVarCount := debugVarCount;
      this.color := color;
      this.isGraphed := isGraphed;
      times := new real[debugVarCount, nodeCount];
    }

    /** Marks the graph shown with the given colour key and colour. */
    method Show(key: nat, c: Color)
      modifies this`isGraphed, this`colorKey, this`color
      ensures isGraphed && colorKey == key && color == c
    {
      isGraphed, colorKey, color := true, key, c;
    }

    /** Marks the graph hidden; its key and colour stay. */
    method Hide()
      modifies this`isGraphed
      ensures !isGraphed
    {
      isGraphed := false;
    }

    /** UpdateGraph: writes each debug variable's time into slot frameID mod nodeCount, leaving every other slot. */
    method UpdateGraph(timeStamps: seq<real>, frameID: nat)
      requires nodeCount > 0 && times.Length0 == debugVarCount && times.Length1 == nodeCount
      requires |timeStamps| >= debugVarCount
      modifies times
      ensures forall i, j :: 0 <= i < debugVarCount && 0 <= j < nodeCount ==>
        times[i, j] == if j == frameID % nodeCount then timeStamps[i] else old(times[i, j])
    {
      var slot := frameID % nodeCount;
      for i := 0 to debugVarCount
        invariant forall a, b :: 0 <= a < debugVarCount && 0 <= b < nodeCount ==>
          times[a, b] == if a < i && b == slot then timeStamps[a] else old(times[a, b])
      {
        times[i, slot] := timeStamps[i];
      }
    }
  }

  /** The list of graphs of one kind (global or profile) and its colour-key stack. */
  class GraphVector {
    const maxActiveGraphs: nat
    const debugVarCount: nat
    var activeGraphs: nat
    var colorKeyStack: seq<int>
    var graphs: seq<PerfGraph>
    const palette: array<Color>
    const presetMax: array<real>
    const maxima: array<real>
    const minima: array<real>
    /** The positions of the graphs currently shown. */
    ghost var shown: set<int>
    /** The colour key each shown graph holds. */
    ghost var held: map<int, int>

    /**
     * Every colour key is either on the stack or held by exactly one shown
     * graph, so the shown graphs and the free keys add up to maxActiveGraphs.
     */
    ghost predicate KeyBook()
      reads this
    {
      && palette.Length == maxActiveGraphs
      && activeGraphs + |colorKeyStack| == maxActiveGraphs
      && (forall i :: i in shown ==> 0 <= i < |graphs|)
      && |shown| == activeGraphs && held.Keys == shown
      && KeysApart(colorKeyStack, held, maxActiveGraphs)
    }

    /** The graphs are distinct objects, and their flags and keys agree with the book. */
    ghost predicate Linked()
      reads this, graphs
    {
      && (forall i, j :: 0 <= i < j < |graphs| ==> graphs[i] != graphs[j])
      && (forall i :: 0 <= i < |graphs| ==> (graphs[i].isGraphed <==> i in shown))
      && (forall i :: i in held && 0 <= i < |graphs| ==> graphs[i].colorKey == held[i])
    }

    ghost predicate Valid()
      reads this, graphs
    {
      KeyBook() && Linked()
    }

    /** The constructor: every key 0..MaxActiveGraphs-1 free, no graph shown, per-variable maxima reset. */
    constructor (maxActiveGraphs: nat, debugVarCount: nat)
      ensures Valid()
      ensures this.maxActiveGraphs == maxActiveGraphs && this.debugVarCount == debugVarCount
      ensures activeGraphs == 0 && graphs == [] && colorKeyStack == KeysBelow(maxActiveGraphs)
      ensures forall i :: 0 <= i < maxActiveGraphs ==> palette[i] == PaletteColor(i)
      ensures presetMax.Length == maxima.Length == minima.Length == debugVarCount
      ensures forall i :: 0 <= i < debugVarCount ==>
        presetMax[i] == DEFAULT_PRESET_MAX && maxima[i] == 0.0 && minima[i] == PERF_GRAPH_ERROR
      ensures fresh(palette) && fresh(presetMax) && fresh(maxima) && fresh(minima)
    {
      this.maxActiveGraphs := maxActiveGraphs;
      this.debugVarCount := debugVarCount;
      activeGraphs := 0;
      graphs := [];
      shown := {};
      held := map[];
      var colours := new Color[maxActiveGraphs];
      var keys: seq<int> := [];
      for i := 0 to maxActiveGraphs
        modifies colours
        invariant keys == KeysBelow(i)
        invariant forall j :: 0 <= j < i ==> colours[j] == PaletteColor(j)
      {
        keys := keys + [i];
        colours[i] := PaletteColor(i);
      }
      colorKeyStack := keys;
      palette := colours;
      var preset := new real[debugVarCount];
      var hi := new real[debugVarCount];
      var lo := new real[debugVarCount];
      for i := 0 to debugVarCount
        modifies preset, hi, lo
        invariant forall j :: 0 <= j < i ==> preset[j] == DEFAULT_PRESET_MAX && hi[j] == 0.0 && lo[j] == PERF_GRAPH_ERROR
      {
        hi[i] := 0.0;
        lo[i] := PERF_GRAPH_ERROR;
        preset[i] := DEFAULT_PRESET_MAX;
      }
      presetMax := preset;
      maxima := hi;
      minima := lo;
    }

    /** AddGraph: appends the graph and returns its handle, the previous list size. */
    method AddGraph(graph: PerfGraph) returns (handle: nat)
      requires Valid() && graph !in graphs && !graph.isGraphed
      modifies this`graphs
      ensures Valid()
      ensures handle == |old(graphs)| && graphs == old(graphs) + [graph]
    {
      handle := |graphs|;
      graphs := graphs + [graph];
    }

    /**
     * Toggle: a hidden graph below capacity is shown and takes the key on top
     * of the stack; a shown graph returns its key and is hidden; a hidden graph
     * at capacity stays hidden. Returns whether the graph is now shown.
     */
    method Toggle(id: nat) returns (graphed: bool)
      requires Valid() && id < |graphs|
      modifies graphs[id], this`activeGraphs, this`colorKeyStack, this`shown, this`held
      ensures Valid()
      ensures graphed == graphs[id].isGraphed
      ensures !old(graphs[id].isGraphed) && old(activeGraphs) < maxActiveGraphs ==>
        && graphed && activeGraphs == old(activeGraphs) + 1
        && graphs[id].colorKey == old(colorKeyStack[|colorKeyStack| - 1])
        && colorKeyStack == old(colorKeyStack[..|colorKeyStack| - 1])
        && graphs[id].color == palette[graphs[id].colorKey]
      ensures old(graphs[id].isGraphed) ==>
        && !graphed && activeGraphs == old(activeGraphs) - 1
        && colorKeyStack == old(colorKeyStack) + [old(graphs[id].colorKey)]
        && graphs[id].colorKey == old(graphs[id].colorKey) && graphs[id].color == old(graphs[id].color)
      ensures !old(graphs[id].isGraphed) && old(activeGraphs) >= maxActiveGraphs ==>
        !graphed && unchanged(this) && unchanged(graphs[id])
    {
      var g := graphs[id];
      if activeGraphs < maxActiveGraphs && !g.isGraphed {
        ShowGraph(id);
      } else if g.isGraphed {
        HideGraph(id);
      }
      graphed := g.isGraphed;
    }

    /** The first branch of Toggle: the graph takes the key on top of the stack and its colour. */
    method ShowGraph(id: nat)
      requires Valid() && id < |graphs| && !graphs[id].isGraphed && activeGraphs < maxActiveGraphs
      modifies graphs[id], this`activeGraphs, this`colorKeyStack, this`shown, this`held
      ensures Valid() && graphs[id].isGraphed && activeGraphs == old(activeGraphs) + 1
      ensures graphs[id].colorKey == old(colorKeyStack[|colorKeyStack| - 1])
      ensures colorKeyStack == old(colorKeyStack[..|colorKeyStack| - 1])
      ensures graphs[id].color == palette[graphs[id].colorKey]
    {
      var g := graphs[id];
      var key := colorKeyStack[|colorKeyStack| - 1];
      var rest := colorKeyStack[..|colorKeyStack| - 1];
      assert forall i :: 0 <= i < |graphs| && i != id ==> graphs[i] != g;
      assert id !in shown;
      PopKeepsApart(colorKeyStack, held, maxActiveGraphs, id);
      activeGraphs := activeGraphs + 1;
      shown := shown + {id};
      held := held[id := key];
      colorKeyStack := rest;
      assert KeyBook();
      g.Show(key, palette[key]);
    }

    /** The second branch of Toggle: the graph's key goes back on the stack. */
    method HideGraph(id: nat)
      requires Valid() && id < |graphs| && graphs[id].isGraphed
      modifies graphs[id], this`activeGraphs, this`colorKeyStack, this`shown, this`held
      ensures Valid() && !graphs[id].isGraphed && activeGraphs == old(activeGraphs) - 1
      ensures colorKeyStack == old(colorKeyStack) + [old(graphs[id].colorKey)]
      ensures graphs[id].colorKey == old(graphs[id].colorKey) && graphs[id].color == old(graphs[id].color)
    {
      var g := graphs[id];
      assert forall i :: 0 <= i < |graphs| && i != id ==> graphs[i] != g;
      assert id in shown;
      PushKeepsApart(colorKeyStack, held, maxActiveGraphs, id);
      activeGraphs := activeGraphs - 1;
      colorKeyStack := colorKeyStack + [g.colorKey];
      shown := shown - {id};
      held := held - {id};
      assert KeyBook();
      g.Hide();
    }

    /** PresetMax: copies the first debugVarCount values into the preset maxima. */
    method PresetMax(values: seq<real>)
      requires presetMax.Length == debugVarCount && |values| >= debugVarCount
      modifies presetMax
      ensures presetMax[..] == values[..debugVarCount]
    {
      for i := 0 to debugVarCount
        invariant presetMax[..i] == values[..i]
      {
        presetMax[i] := values[i];
      }
    }

    /** GetGlobalPresetMax: the largest preset maximum, or 0 when none is positive. */
    method GetGlobalPresetMax() returns (m: real)
      requires presetMax.Length == debugVarCount
      ensures m == MaxOrZero(presetMax[..])
      ensures m >= 0.0 && forall i :: 0 <= i < debugVarCount ==> presetMax[i] <= m
      ensures m == 0.0 || exists i :: 0 <= i < debugVarCount && presetMax[i] == m
    {
      m := 0.0;
      for i := 0 to debugVarCount
        invariant m == MaxOrZero(presetMax[..i])
      {
        assert presetMax[..i + 1][..i] == presetMax[..i];
        if presetMax[i] > m {
          m := presetMax[i];
        }
      }
      assert presetMax[..debugVarCount] == presetMax[..];
      MaxOrZeroSpec(presetMax[..]);
    }
  }
}

# VSGL renderer and MiniEngine core: a Dafny model

This project models the sequential, checkable core of a Direct3D 12 renderer
built on Microsoft's MiniEngine. The renderer draws virtual spherical-Gaussian
lights (VSGL).

- **The VSGL frame.** This comes in three near-identical renderers: the
  stand-alone `MyRenderer`, the ModelViewer `Renderer`, and the MiniEngine
  ModelViewer `Renderer` with the hemispherical-convolution (HSG) toggle.
  - A frame is a log of context calls: transitions, clears, bindings, draws and
    dispatches. It is recorded by imperative methods against a context that
    tracks each resource's usage state (`GpuContext`, `FrameRecorder`).
  - The frame log is defined pass by pass (`FrameRenderer`).
  - A frame is replayed from any GPU state. The replay proves two things: every
    clear, draw and dispatch finds its resources in the state it needs, and
    the two VSGL dispatches read the reflective shadow map (RSM) in the
    registers their shaders expect (`CommandReplay`, `FrameChecks`).
- **Integer and allocator utilities.**
  - Alignment and power-of-two arithmetic on 64-bit words (`AlignMath`).
  - Descriptor handles, heaps and the descriptor allocator (`Descriptors`).
  - The linear upload allocator and its page manager (`LinearAlloc`).
  - The dynamic descriptor-table cache and heap (`DynamicDescriptors`,
    `DynamicHeap`).
  - DXGI format families (`PixelFormats`).
  - Colour-buffer mip and flag helpers (`ColorBuffers`).
  - The graphics PSO description setters (`PipelineState`).
- **String logic.**
  - Path splitting (`PathUtil`).
  - `-key value` command-line parsing (`CommandLine`).
  - Engine-tuning variables and their group tree (`TuningVars`,
    `TuningGraph`).
- **Small state machines.**
  - The mesh sorter's sort keys, PSO library and pass loop (`SortKeys`,
    `MeshSorting`).
  - Performance-graph activation with a colour-key stack (`GraphRender`).
  - Texture reference counting and the texture cache (`TextureRefs`).
  - Animation play state and key-frame sampling (`Animation`).

How the source is rendered in Dafny:

- C++ fields that change in place become class fields with `modifies` frames.
- Pure helpers become functions.
- `size_t` and `uint32_t` arithmetic is written out modulo 2^64 or 2^32 where it can wrap.
- An `ASSERT` that callers must satisfy becomes a `requires`.
- GPU calls become entries in a command log, and a fence becomes a value passed in.

## Model

| member | source | states |
|---|---|---|
| AlignMath.Wrap | MiniEngine/Core/Math/Common.h:25 | size_t arithmetic wraps modulo 2^64: in range the value is kept, one word above or below it is shifted back by 2^64 |
| AlignMath.Not | MiniEngine/Core/Math/Common.h:25 | the complement ~mask of a word adds up with the mask to 2^64 - 1 |
| AlignMath.And | MiniEngine/Core/Math/Common.h:25 | a bitwise AND is at most either operand |
| AlignMath.AndPredecessor | MiniEngine/Core/Math/Common.h:53-56 | for x >= 1, x & (x - 1) is 0 exactly when x is a power of two |
| AlignMath.Msb | MiniEngine/Core/Math/Common.h:65-70 | the reverse bit scan finds the bit index r with 2^r <= v < 2^(r+1) |
| AlignMath.Lsb | MiniEngine/Core/Math/Common.h:66-70 | the forward bit scan finds the lowest set bit: bit r is set, every bit below it is clear, and r is at most the most significant bit |
| AlignMath.ScansMeet | MiniEngine/Core/Math/Common.h:68-71 | the two scans return the same index exactly when the value is a power of two |
| AlignMath.AlignUpWithMask | MiniEngine/Core/Math/Common.h:23-26 | (value + mask) & ~mask is at most ~mask and at most the wrapped sum |
| AlignMath.AlignDownWithMask | MiniEngine/Core/Math/Common.h:28-31 | value & ~mask never exceeds value or ~mask |
| AlignMath.AlignUp | MiniEngine/Core/Math/Common.h:33-36 | for a power-of-two alignment whose sum does not overflow, the result is a multiple of the alignment in [value, value + alignment) |
| AlignMath.AlignDown | MiniEngine/Core/Math/Common.h:38-41 | the result is at most value, and for a power-of-two alignment it is value minus value mod alignment |
| AlignMath.IsAligned | MiniEngine/Core/Math/Common.h:43-46 | for a power-of-two alignment, true iff value mod alignment is 0 |
| AlignMath.DivideByMultiple | MiniEngine/Core/Math/Common.h:48-51 | without overflow the result is the ceiling of value / alignment: r * a >= value > (r - 1) * a |
| AlignMath.IsPowerOfTwo | MiniEngine/Core/Math/Common.h:53-56 | true iff value is 0 or a power of two (the subtraction wraps for 0) |
| AlignMath.IsDivisible | MiniEngine/Core/Math/Common.h:58-61 | true iff value mod divisor is 0 |
| AlignMath.Log2 | MiniEngine/Core/Math/Common.h:63-74 | 0 for 0; otherwise the ceiling of log2: value <= 2^r and 2^(r-1) < value, with r <= 64 |
| AlignMath.CeilLogWord | MiniEngine/Core/Math/Common.h:68-71 | mssb + (mssb == lssb ? 0 : 1) of a nonzero word is its ceiling log2, at most 64 |
| AlignMath.AlignPowerOfTwo | MiniEngine/Core/Math/Common.h:76-79 | 0 for 0; otherwise a power of two r with value <= r < 2 * value, below 2^32 for inputs up to 2^31 |
| AlignMath.LogBelow | MiniEngine/Core/Math/Common.h:76-79 | up to 2^31 the shift count of AlignPowerOfTwo stays within 31 |
| AlignMath.AlignUpIsLeast | MiniEngine/Core/Math/Common.h:33-36 | AlignUp is at most every multiple of the alignment that is at least value: it is the least one |
| AlignMath.AlignBracket | MiniEngine/Core/Math/Common.h:33-41 | AlignDown(v, a) <= v <= AlignUp(v, a), both multiples of a |
| AlignMath.AlignedIffAlignDownFixed | MiniEngine/Core/Math/Common.h:38-46 | for every alignment, IsAligned(v, a) holds iff AlignDown(v, a) == v |
| AlignMath.AlignUpWrapsOnOverflow | MiniEngine/Core/Math/Common.h:23-36 | when value + alignment - 1 overflows, AlignUp wraps to a value below its input |
| AlignMath.AlignUpZeroAlignment | MiniEngine/Core/Math/Common.h:33-36 | alignment 0 makes the mask all ones, and AlignUp returns 0 |
| AlignMath.ZeroIsPowerOfTwo | MiniEngine/Core/Math/Common.h:53-56 | IsPowerOfTwo(0) is true |
| AlignMath.AlignUpOfAllOnes | MiniEngine/Core/Math/Common.h:33-36 | the all-ones word aligns up to 0 for every power of two from 2 on |
| AlignMath.AlignUpByOne | MiniEngine/Core/Math/Common.h:33-36 | alignment 1 leaves every value unchanged |
| PathUtil.RFind | MiniEngine/Core/Utility.cpp:176 | rfind finds nothing exactly when the character is absent; otherwise it gives the index of its last occurrence |
| PathUtil.RFindIsLast | MiniEngine/Core/Utility.cpp:176 | an occurrence with no later occurrence is what rfind returns |
| PathUtil.LowerChar | MiniEngine/Core/Utility.cpp:155-162 | an ASCII capital maps to its lower-case letter (32 code points below); every other character is kept |
| PathUtil.ToLower | MiniEngine/Core/Utility.cpp:155-162 | the loop keeps the length and lower-cases every character in place |
| PathUtil.LowerCharIdempotent | MiniEngine/Core/Utility.cpp:155-162 | lower-casing twice equals lower-casing once, and leaves no capital |
| PathUtil.SplitPoint | MiniEngine/Core/Utility.cpp:173-182 | the split follows the last '/' when there is one, else the last '\\', and is absent only when there is neither |
| PathUtil.GetBasePath | MiniEngine/Core/Utility.cpp:173-182 | the result is a prefix of the path, empty or ending in a separator; it ends in '/' when the path holds one, and is empty without separators |
| PathUtil.RemoveBasePath | MiniEngine/Core/Utility.cpp:195-204 | the result is a suffix of the path with no '/' (and no '\\' when the path has no '/') |
| PathUtil.BasePathSplit | MiniEngine/Core/Utility.cpp:173-204 | GetBasePath(p) + RemoveBasePath(p) == p for every path |
| PathUtil.SlashTakesPriority | MiniEngine/Core/Utility.cpp:173-204 | a '/' is the split point even when backslashes precede it |
| PathUtil.GetFileExtension | MiniEngine/Core/Utility.cpp:217-225 | the extension holds neither '.' nor '/' and is taken from the file name, not from the directories |
| PathUtil.NameExtension | MiniEngine/Core/Utility.cpp:220-224 | empty without a dot; otherwise the suffix after the last dot of the name |
| PathUtil.ExtensionOfName | MiniEngine/Core/Utility.cpp:220-224 | the text after the last dot of a name satisfies NameExtension's contract |
| PathUtil.RemoveExtension | MiniEngine/Core/Utility.cpp:237-240 | a prefix of the path: the whole path without a dot, else everything before the last dot |
| PathUtil.ExtensionRoundTrip | MiniEngine/Core/Utility.cpp:217-240 | when the file name has a dot, RemoveExtension(p) + "." + GetFileExtension(p) == p |
| PathUtil.ExtensionDot | MiniEngine/Core/Utility.cpp:217-240 | the extension starts right after a dot of the path that is its last dot |
| CommandLine.Next | MiniEngine/Core/Util/CommandLineArg.cpp:31-40 | one scan step advances by one token, or by two when it reads a dash key that has a token after it |
| CommandLine.GatherKeys | MiniEngine/Core/Util/CommandLineArg.cpp:24-43 | a key ends up in the map iff it was there before or the scan reads "-key" with a token after it |
| CommandLine.LastPairWins | MiniEngine/Core/Util/CommandLineArg.cpp:38 | the pair read last sets its key's value, overwriting any earlier pair |
| CommandLine.GatherValue | MiniEngine/Core/Util/CommandLineArg.cpp:31-40 | a key's value is the token after the last "-key" the scan reads for it, wherever that pair stands: a later pair overwrites an earlier one |
| CommandLine.GatherUntouched | MiniEngine/Core/Util/CommandLineArg.cpp:31-40 | a key that no pair read by the scan names keeps what the map held for it, or stays absent |
| CommandLine.ValueConsumed | MiniEngine/Core/Util/CommandLineArg.cpp:35-40 | the token after a key is taken as its value and never read as a key, even when it starts with '-' |
| CommandLine.ArgumentMap.constructor | MiniEngine/Core/Util/CommandLineArg.cpp:21 | the argument map starts empty |
| CommandLine.ArgumentMap.GatherArgs | MiniEngine/Core/Util/CommandLineArg.cpp:24-48 | with one argument or none the map is unchanged; otherwise the loop leaves the map the scan specification gives, in which every key read maps to the token after its last "-key" |
| CommandLine.ArgumentMap.Lookup | MiniEngine/Core/Util/CommandLineArg.cpp:50-61 | a value is found exactly for recorded keys, and it is the recorded one |
| CommandLine.ArgumentMap.GetString | MiniEngine/Core/Util/CommandLineArg.cpp:79-85 | returns true and the recorded value for a recorded key; otherwise false, with the caller's value kept |
| TuningVars.Clamp | MiniEngine/Core/EngineTuning.h:102 | the float clamp of NumVar: the value lies in [min, max], an in-range value is kept and values above and below map to the nearer bound |
| TuningVars.ClampInt | MiniEngine/Core/EngineTuning.h:138 | the int32_t clamp of IntVar, with the same three cases over integers |
| TuningVars.ClampIdempotent | MiniEngine/Core/EngineTuning.h:102 | clamping a clamped value changes nothing |
| TuningVars.ClampMonotone | MiniEngine/Core/EngineTuning.h:102 | clamping preserves order |
| TuningVars.IntStepUndone | MiniEngine/Core/EngineTuning.h:130-131 | a step that stays in range is undone by the opposite step |
| TuningVars.EnumClamp | MiniEngine/Core/EngineTuning.h:163 | a negative index becomes 0, an index at or past the length becomes length - 1, an index in range is kept |
| TuningVars.EnumNext | MiniEngine/Core/EngineTuning.h:153 | (v + 1) % length moves to the next entry and wraps from the last to the first |
| TuningVars.EnumPrev | MiniEngine/Core/EngineTuning.h:154 | (v + length - 1) % length moves to the previous entry and wraps from the first to the last |
| TuningVars.EnumStepsInverse | MiniEngine/Core/EngineTuning.h:153-154 | Increment and Decrement undo each other |
| TuningVars.EnumAdvance | MiniEngine/Core/EngineTuning.h:153 | n increments stay within the list |
| TuningVars.EnumAdvanceIsModulo | MiniEngine/Core/EngineTuning.h:153 | n increments from v land on (v + n) mod length |
| TuningVars.EnumCycle | MiniEngine/Core/EngineTuning.h:153 | length increments return to the start |
| TuningVars.BoolVar.constructor | MiniEngine/Core/EngineTuning.cpp:295-299 | the flag starts at the given value |
| TuningVars.BoolVar.Assign | MiniEngine/Core/EngineTuning.h:72 | assignment sets the flag |
| TuningVars.BoolVar.Increment | MiniEngine/Core/EngineTuning.h:75 | Increment sets the flag |
| TuningVars.BoolVar.Decrement | MiniEngine/Core/EngineTuning.h:76 | Decrement clears the flag |
| TuningVars.BoolVar.Bang | MiniEngine/Core/EngineTuning.h:77 | Bang toggles the flag |
| TuningVars.NumVar.constructor | MiniEngine/Core/EngineTuning.cpp:327-335 | bounds and step are stored and the initial value is clamped into them |
| TuningVars.NumVar.Assign | MiniEngine/Core/EngineTuning.h:91 | assignment stores the clamped value and keeps the value within bounds |
| TuningVars.NumVar.Increment | MiniEngine/Core/EngineTuning.h:94 | the value becomes Clamp(value + step) |
| TuningVars.NumVar.Decrement | MiniEngine/Core/EngineTuning.h:95 | the value becomes Clamp(value - step) |
| TuningVars.IntVar.constructor | MiniEngine/Core/EngineTuning.cpp:402-410 | bounds and step are stored and the initial value is clamped into them |
| TuningVars.IntVar.Assign | MiniEngine/Core/EngineTuning.h:127 | assignment stores the clamped value |
| TuningVars.IntVar.Increment | MiniEngine/Core/EngineTuning.h:130 | the value becomes Clamp(value + step), when the int32_t sum does not overflow |
| TuningVars.IntVar.Decrement | MiniEngine/Core/EngineTuning.h:131 | the value becomes Clamp(value - step), when the int32_t difference does not overflow |
| TuningVars.EnumVar.constructor | MiniEngine/Core/EngineTuning.cpp:434-441 | the length is stored and the initial index is clamped into the list |
| TuningVars.EnumVar.Assign | MiniEngine/Core/EngineTuning.h:150 | assignment clamps the index into the list |
| TuningVars.EnumVar.Increment | MiniEngine/Core/EngineTuning.h:153 | the index moves to the next entry, wrapping |
| TuningVars.EnumVar.Decrement | MiniEngine/Core/EngineTuning.h:154 | the index moves to the previous entry, wrapping |
| TuningVars.EnumVar.SetListLength | MiniEngine/Core/EngineTuning.h:160 | the new length is stored and the index is re-clamped; with a positive length the variable stays valid |
| TuningVars.DynamicEnumVar.constructor | MiniEngine/Core/EngineTuning.cpp:475-480 | starts with no labels, count 0 and index 0 |
| TuningVars.DynamicEnumVar.AddEnum | MiniEngine/Core/EngineTuning.h:184 | appends the label, increments the count and keeps the index |
| TuningVars.DynamicEnumVar.Increment | MiniEngine/Core/EngineTuning.h:177 | the index moves to the next label, wrapping |
| TuningVars.DynamicEnumVar.Decrement | MiniEngine/Core/EngineTuning.h:178 | the index moves to the previous label, wrapping |
| TuningVars.DynamicEnumVar.Assign | MiniEngine/Core/EngineTuning.h:174-187 | assignment clamps the index into the label list; with no labels it stores 0 for a negative value and -1 otherwise, as the source's Clamp does |
| TuningGraph.BeforeIrreflexive | MiniEngine/Core/EngineTuning.cpp:88 | the std::map key order on names is irreflexive |
| TuningGraph.BeforeTransitive | MiniEngine/Core/EngineTuning.cpp:88 | the key order is transitive |
| TuningGraph.BeforeTotal | MiniEngine/Core/EngineTuning.cpp:88 | any two distinct names are ordered one way or the other |
| TuningGraph.Get | MiniEngine/Core/EngineTuning.cpp:54-58 | FindChild finds a child exactly when one has that name, and returns that child's node |
| TuningGraph.SetChild | MiniEngine/Core/EngineTuning.cpp:60-64 | m_Children[name] = child keeps the names sorted, maps name to the new node and leaves every other name's lookup unchanged |
| TuningGraph.SortedCons | MiniEngine/Core/EngineTuning.cpp:88 | a name before the first key may be put in front of a sorted map |
| TuningGraph.SortedAfterHead | MiniEngine/Core/EngineTuning.cpp:88 | inserting after the first key keeps the map sorted |
| TuningGraph.JoinPathSnoc | MiniEngine/Core/EngineTuning.cpp:682-700 | joining groups plus one more name equals joining with that name glued to the leaf by '/' |
| TuningGraph.FindFrom | MiniEngine/Core/EngineTuning.cpp:690 | path.find('/', start) returns the first '/' at or after start, or nothing when there is none |
| TuningGraph.SplitPath | MiniEngine/Core/EngineTuning.cpp:682-700 | the loop splits a path into group names and a leaf that contain no '/' and join back to the path |
| TuningGraph.SplitJoin | MiniEngine/Core/EngineTuning.cpp:682-700 | the split specification joins back to the path, with no '/' in any part |
| TuningGraph.JoinUnique | MiniEngine/Core/EngineTuning.cpp:682-700 | '/'-free parts that join to the same path are equal: the split is the only one |
| TuningGraph.FirstSlash | MiniEngine/Core/EngineTuning.cpp:690 | in a + "/" + b with no '/' in a, the first '/' is at index |a| |
| TuningGraph.AddPath | MiniEngine/Core/EngineTuning.cpp:702-723 | descending and attaching keeps every group sorted and the root's expanded flag |
| TuningGraph.GetWellFormed | MiniEngine/Core/EngineTuning.cpp:54-58 | a child found in a well-formed group is well-formed |
| TuningGraph.SetChildWellFormed | MiniEngine/Core/EngineTuning.cpp:60-64 | setting a well-formed child keeps the group well-formed |
| TuningGraph.AddPathResolves | MiniEngine/Core/EngineTuning.cpp:702-723 | after a successful add, the groups followed by the leaf lead to the new variable |
| TuningGraph.AddPathFreshSucceeds | MiniEngine/Core/EngineTuning.cpp:702-723 | adding to an empty root always succeeds: missing groups are created |
| TuningGraph.AddPathFailsIff | MiniEngine/Core/EngineTuning.cpp:712-719 | the add fails exactly when some prefix of the group path already names a variable (the "trash the tweak graph" assertion) |
| TuningGraph.AddPathFrame | MiniEngine/Core/EngineTuning.cpp:702-723 | a successful add leaves every path that is neither a prefix of the group path nor an extension of the new variable's path unchanged |
| TuningGraph.AddPathGroups | MiniEngine/Core/EngineTuning.cpp:706-721 | every prefix of the group path leads to a group after the add; an existing group keeps its expanded flag, a new one starts collapsed |
| TuningGraph.AddVariable | MiniEngine/Core/EngineTuning.cpp:682-724 | one AddToVariableGraph call keeps the tree well-formed and the root's flag |
| TuningGraph.AddAll | MiniEngine/Core/EngineTuning.cpp:545-555 | adding the queued variables in order keeps the tree well-formed |
| TuningGraph.AddAllLastWins | MiniEngine/Core/EngineTuning.cpp:545-555 | after Initialize, the last queued registration is found at its path |
| TuningGraph.NodeAtAppend | MiniEngine/Core/EngineTuning.cpp:193-255 | following a cursor in two parts equals following it in one |
| TuningGraph.ChildExists | MiniEngine/Core/EngineTuning.cpp:193-255 | a cursor to a group extended by one of its child indices leads to that child |
| TuningGraph.ParentOf | MiniEngine/Core/EngineTuning.cpp:193-255 | every nonempty cursor names a child of the group its prefix leads to |
| TuningGraph.FirstVariable | MiniEngine/Core/EngineTuning.cpp:193-196 | none for an empty group, otherwise its first child |
| TuningGraph.LastIn | MiniEngine/Core/EngineTuning.cpp:198-211 | an empty group gives itself; otherwise every step of the descent takes the last child, every group passed through is expanded, and the descent stops at a collapsed or empty group or a variable |
| TuningGraph.LastVariable | MiniEngine/Core/EngineTuning.cpp:198-211 | the last visible node below a group: reached by taking the last child at every level below the group, through expanded groups only, ending at a node that is not an open group; the group itself exactly when it has no children |
| TuningGraph.NextVariable | MiniEngine/Core/EngineTuning.cpp:213-231 | the next sibling of the child or of the nearest ancestor that has one: every level below the returned one holds a last child; none exactly when the child is last at every level |
| TuningGraph.LastFromStep | MiniEngine/Core/EngineTuning.cpp:227-228 | the last child of a group is last at every level iff its group is |
| TuningGraph.PrevVariable | MiniEngine/Core/EngineTuning.cpp:233-255 | the first child gives its group; otherwise the previous sibling, or exactly LastVariable of it when it is an expanded group |
| TuningGraph.NextVar | MiniEngine/Core/EngineTuning.cpp:270-281 | an open group steps into its first child; otherwise the next sibling of the node or of its nearest ancestor with one; the last node of the menu stays where it is |
| TuningGraph.PrevVar | MiniEngine/Core/EngineTuning.cpp:283-293 | a first child steps up to its group; otherwise the previous sibling, or the last visible node inside it when that sibling is an expanded group |
| TuningGraph.SetExpanded | MiniEngine/Core/EngineTuning.cpp:78-80 | the addressed group takes the new flag; its children, the names and children along the path, and every node off the path are unchanged; the tree stays well-formed |
| TuningGraph.TuningRegistry.constructor | MiniEngine/Core/EngineTuning.cpp:31-34 | the root group starts empty and collapsed, the queue empty |
| TuningGraph.TuningRegistry.AddToVariableGraph | MiniEngine/Core/EngineTuning.cpp:682-724 | reports whether the add succeeded and leaves the root AddVariable gives |
| TuningGraph.TuningRegistry.RegisterVariable | MiniEngine/Core/EngineTuning.cpp:726-738 | before Initialize, the path and variable are queued and the count grows by one; afterwards the variable is added to the tree at once |
| TuningGraph.TuningRegistry.Initialize | MiniEngine/Core/EngineTuning.cpp:545-555 | adds the queued variables in queue order and sets the count to -1; a second call changes nothing |
| TuningGraph.TuningRegistry.ExpandGroup | MiniEngine/Core/EngineTuning.cpp:78 | Increment on a group expands it and leaves the rest of the menu as it was |
| TuningGraph.TuningRegistry.CollapseGroup | MiniEngine/Core/EngineTuning.cpp:79 | Decrement on a group collapses it and leaves the rest of the menu as it was |
| TuningGraph.TuningRegistry.ToggleGroup | MiniEngine/Core/EngineTuning.cpp:80 | Bang on a group flips its expanded flag and leaves the rest of the menu as it was |
| Descriptors.Wrap32 | MiniEngine/Core/DescriptorHeap.h:119-120 | uint32_t arithmetic wraps modulo 2^32 and keeps values in range |
| Descriptors.AsInt32 | MiniEngine/Core/DescriptorHeap.h:75 | a uint32_t passed as INT lands in the int32 range, keeps values below 2^31 and wraps back to the same word |
| Descriptors.ScaledOffset | MiniEngine/Core/DescriptorHeap.cpp:97 | Count * m_DescriptorSize converted to INT equals the product while it fits in an int32 |
| Descriptors.DescriptorHandle.Advanced | MiniEngine/Core/DescriptorHeap.h:75-88 | a null handle stays null, a handle without a GPU address stays without one, and each known address moves by the offset |
| Descriptors.DefaultHandleIsNull | MiniEngine/Core/DescriptorHeap.h:55-59 | the default handle is null, not shader-visible, and stays so whatever it is advanced by |
| Descriptors.AdvancedTwice | MiniEngine/Core/DescriptorHeap.h:75-88 | advancing by a and then by b equals advancing by a + b when the first step does not land on the unknown address |
| Descriptors.InRange | MiniEngine/Core/DescriptorHeap.h:117 | handles inside a heap advance without wrapping |
| Descriptors.OffsetDivides | MiniEngine/Core/DescriptorHeap.h:119-120 | the wrapped byte offset of the k-th descriptor divided by the size is k |
| Descriptors.DescriptorHeap.constructor | MiniEngine/Core/DescriptorHeap.h:108 | a heap starts uncreated |
| Descriptors.DescriptorHeap.Create | MiniEngine/Core/DescriptorHeap.cpp:70-91 | records the count and the descriptor size, marks every descriptor free and points the first and next handles at the heap start |
| Descriptors.DescriptorHeap.HasAvailableSpace | MiniEngine/Core/DescriptorHeap.h:114 | true iff the count does not exceed the free descriptors |
| Descriptors.DescriptorHeap.Alloc | MiniEngine/Core/DescriptorHeap.cpp:93-100 | returns the old next handle, moves the next handle by count * size and takes count descriptors from the free count; the returned handle is the first free descriptor |
| Descriptors.DescriptorHeap.At | MiniEngine/Core/DescriptorHeap.h:117 | operator[] gives the handle arrayIdx descriptors past the first |
| Descriptors.DescriptorHeap.GetOffsetOfHandle | MiniEngine/Core/DescriptorHeap.h:119-120 | the offset is a uint32_t |
| Descriptors.DescriptorHeap.ValidateHandle | MiniEngine/Core/DescriptorHeap.cpp:102-113 | true iff the CPU address lies inside the heap and the GPU address is at the same distance from the heap start |
| Descriptors.DescriptorHeap.OffsetOfAt | MiniEngine/Core/DescriptorHeap.h:117-120 | GetOffsetOfHandle inverts operator[] |
| Descriptors.DescriptorHeap.AtIsValid | MiniEngine/Core/DescriptorHeap.cpp:102-113 | every handle operator[] gives passes ValidateHandle |
| Descriptors.AllocateAsWritten | MiniEngine/Core/DescriptorHeap.cpp:48-64 | a new heap is taken exactly when there is none or the remaining count is too small; the handle returned is the new heap's start or the old current handle |
| Descriptors.OversizedAllocationOverruns | MiniEngine/Core/DescriptorHeap.cpp:48-64 | allocating 300 descriptors from a 256-descriptor heap wraps the remaining count, so the next allocation comes from past the end of that heap |
| Descriptors.AllocateStaysInHeap | MiniEngine/Core/DescriptorHeap.cpp:48-64 | for at most 256 descriptors, the block returned lies inside the current heap and the current handle moves past it |
| Descriptors.TakeInHeap | MiniEngine/Core/DescriptorHeap.cpp:60-63 | a block taken from the remaining space lies inside the heap |
| Descriptors.HeapArithmetic | MiniEngine/Core/DescriptorHeap.cpp:60-62 | the current handle stays at the heap start plus used descriptors times the size |
| Descriptors.DescriptorHeapPool.constructor | MiniEngine/Core/DescriptorHeap.cpp:25 | the heap pool starts empty |
| Descriptors.DescriptorHeapPool.RequestNewHeap | MiniEngine/Core/DescriptorHeap.cpp:32-46 | appends the new heap to the pool and returns it |
| Descriptors.DescriptorHeapPool.DestroyAll | MiniEngine/Core/DescriptorHeap.cpp:27-30 | empties the pool |
| Descriptors.DescriptorAllocator.constructor | MiniEngine/Core/DescriptorHeap.h:27-31 | no current heap, descriptor size 0, current handle unknown |
| Descriptors.DescriptorAllocator.Allocate | MiniEngine/Core/DescriptorHeap.cpp:48-64 | follows AllocateAsWritten; for at most 256 descriptors the block lies inside the current heap, and the pool grows by one heap exactly when a new heap was needed |
| LinearAlloc.DefaultPageSize | MiniEngine/Core/LinearAllocator.h:93-97 | a GPU-exclusive page is 64 KiB and a CPU-writable page 2 MiB |
| LinearAlloc.ReadyCount | MiniEngine/Core/LinearAllocator.cpp:39 | the leading entries whose fences have completed, up to the first entry still pending |
| LinearAlloc.PagesOf | MiniEngine/Core/LinearAllocator.cpp:41 | the pages of a retired queue, in order |
| LinearAlloc.Tagged | MiniEngine/Core/LinearAllocator.cpp:64-65 | every page tagged with the same fence value, in order |
| LinearAlloc.RequestedFifo | MiniEngine/Core/LinearAllocator.cpp:35-59 | completed retired pages move to the available queue in order; the first available page is reused; a new page is created (and added to the pool) exactly when nothing is available or recyclable; the retired queue loses only a completed prefix and its new front is still pending |
| LinearAlloc.Requested | MiniEngine/Core/LinearAllocator.cpp:35-59 | RequestPage: completed retired pages join the available queue, then the first available page is taken, or a new page is created |
| LinearAlloc.LinearAllocatorPageManager.constructor | MiniEngine/Core/LinearAllocator.cpp:26-31 | a manager of the given type starts with empty queues and pool |
| LinearAlloc.LinearAllocatorPageManager.CreateNewPage | MiniEngine/Core/LinearAllocator.cpp:85-128 | a new page has the requested width, or the default page size for a request of 0 |
| LinearAlloc.LinearAllocatorPageManager.RequestPage | MiniEngine/Core/LinearAllocator.cpp:35-59 | the queues and the page returned are those Requested specifies; only a newly created page gets a width |
| LinearAlloc.LinearAllocatorPageManager.RecycleRetired | MiniEngine/Core/LinearAllocator.cpp:39-43 | the completed prefix of the retired queue is appended, in order, to the available queue |
| LinearAlloc.LinearAllocatorPageManager.DiscardPages | MiniEngine/Core/LinearAllocator.cpp:61-66 | every used page is queued behind the retired pages with the fence value |
| LinearAlloc.LinearAllocatorPageManager.FreeLargePages | MiniEngine/Core/LinearAllocator.cpp:68-83 | the completed prefix of the deletion queue is deleted, then the large pages are queued with the fence value |
| LinearAlloc.LinearAllocatorPageManager.DeleteCompleted | MiniEngine/Core/LinearAllocator.cpp:72-76 | deletes exactly the pages of the completed prefix of the deletion queue |
| LinearAlloc.LinearAllocatorPageManager.QueueForDeletion | MiniEngine/Core/LinearAllocator.cpp:78-82 | queues the large pages with the fence value |
| LinearAlloc.LinearAllocatorPageManager.Destroy | MiniEngine/Core/LinearAllocator.h:114 | empties the page pool |
| LinearAlloc.PlaceSmall | MiniEngine/Core/LinearAllocator.cpp:171-184 | a new page always starts at offset 0, and one is needed whenever there is no current page |
| LinearAlloc.RetireAssertFailsOnlyWhenFresh | MiniEngine/Core/LinearAllocator.cpp:171-175 | for a power-of-two alignment, the "current page not null" assertion fails only on the first allocation, with alignment 1 and size 0 (the ~0 start offset does not wrap) |
| LinearAlloc.StartFits | MiniEngine/Core/LinearAllocator.cpp:173 | the overflow test on a fresh allocator fails only for a zero-size request from the ~0 offset |
| LinearAlloc.FreshOffsetAligned | MiniEngine/Core/LinearAllocator.cpp:171 | aligning the initial ~0 offset gives 0, unless the alignment is 1 |
| LinearAlloc.AlignUpOfZero | MiniEngine/Core/LinearAllocator.cpp:171 | offset 0 stays 0 under every power-of-two alignment |
| LinearAlloc.PlaceSmallDisjoint | MiniEngine/Core/LinearAllocator.cpp:171-190 | an allocation on the current page starts at or after the old offset, is aligned and ends inside the page |
| LinearAlloc.PlacedFits | MiniEngine/Core/LinearAllocator.cpp:171-190 | every small allocation is aligned and ends inside its page |
| LinearAlloc.ZeroAlignmentRewinds | MiniEngine/Core/LinearAllocator.cpp:160-171 | alignment 0 passes the power-of-two assertion, and the offset is rewound to 0 on the current page, overlapping earlier allocations |
| LinearAlloc.LinearAllocator.constructor | MiniEngine/Core/LinearAllocator.h:132-136 | page size from the type, offset ~0, no current page and empty page lists |
| LinearAlloc.LinearAllocator.AllocateLargePage | MiniEngine/Core/LinearAllocator.cpp:146-156 | a one-off page of the requested size, added to the large page list, with the allocation at offset 0 |
| LinearAlloc.LinearAllocator.Allocate | MiniEngine/Core/LinearAllocator.cpp:158-193 | the size is aligned up; oversized requests get a large page and leave the current page alone; otherwise the allocation is aligned, ends inside the page, and retires the current page exactly when it does not fit; the manager creates the large page (next page number and its width) on the large path, requests a page on a page change, and is unchanged when the current page is kept |
| LinearAlloc.LinearAllocator.AllocateSmall | MiniEngine/Core/LinearAllocator.cpp:171-192 | the page-sized path of Allocate, with the same placement, retirement and manager guarantees: the page manager changes only when a new page is requested |
| LinearAlloc.LinearAllocator.CleanupUsedPages | MiniEngine/Core/LinearAllocator.cpp:130-144 | the current page is retired with its offset reset to 0, every retired page is discarded with the fence, the large pages are queued for deletion, and the local lists are emptied |
| DynamicDescriptors.Range | MiniEngine/Core/DynamicDescriptorHeap.cpp:312 | ((1 << n) - 1) << offset as a set of bits: exactly the bits in [offset, offset + n) |
| DynamicDescriptors.Lowest | MiniEngine/Core/DynamicDescriptorHeap.cpp:133 | _BitScanForward finds the lowest set bit |
| DynamicDescriptors.HighestBelow | MiniEngine/Core/DynamicDescriptorHeap.cpp:138 | _BitScanReverse finds the highest set bit |
| DynamicDescriptors.Extent | MiniEngine/Core/DynamicDescriptorHeap.cpp:137-141 | MaxSetHandle + 1 bounds every assigned bit and is 0 exactly for an empty map |
| DynamicDescriptors.Above | MiniEngine/Core/DynamicDescriptorHeap.cpp:133-135 | clearing scanned bits leaves exactly the bits at or above the scan position |
| DynamicDescriptors.Ascending | MiniEngine/Core/DynamicDescriptorHeap.cpp:133-135 | the bit-scan loop visits only set bits below the bound |
| DynamicDescriptors.AscendingSorted | MiniEngine/Core/DynamicDescriptorHeap.cpp:133-135 | the visit order is strictly increasing and covers every set bit below the bound |
| DynamicDescriptors.Extents | MiniEngine/Core/DynamicDescriptorHeap.cpp:137-141 | each table's extent is taken from its own assigned-handle map |
| DynamicDescriptors.StagedIsSum | MiniEngine/Core/DynamicDescriptorHeap.cpp:127-144 | the staged size is the sum of the extents of the stale tables in scan order |
| DynamicDescriptors.Bindings | MiniEngine/Core/DynamicDescriptorHeap.cpp:188-198 | one binding per stale table |
| DynamicDescriptors.BindingsAppend | MiniEngine/Core/DynamicDescriptorHeap.cpp:188-198 | each table is bound at the start plus the sizes of the tables before it |
| DynamicDescriptors.BindingAt | MiniEngine/Core/DynamicDescriptorHeap.cpp:188-198 | the k-th stale table is bound at DestHandleStart plus the sizes of the first k tables |
| DynamicDescriptors.BindingsPacked | MiniEngine/Core/DynamicDescriptorHeap.cpp:188-198 | consecutive tables are bound back to back, the last ending at the start plus the staged size |
| DynamicDescriptors.ScanStep | MiniEngine/Core/DynamicDescriptorHeap.cpp:159-162 | one scan step appends the lowest remaining bit and clears it |
| DynamicDescriptors.SizedMono | MiniEngine/Core/DynamicDescriptorHeap.cpp:328-340 | the running table offset never decreases |
| DynamicDescriptors.TableFits | MiniEngine/Core/DynamicDescriptorHeap.cpp:328-343 | each table ends within the total cache size |
| DynamicDescriptors.ExtentsWithinSizes | MiniEngine/Core/DynamicDescriptorHeap.cpp:127-144 | the staged size of stale tables never exceeds the sum of their table sizes |
| DynamicDescriptors.LaidOutAt | MiniEngine/Core/DynamicDescriptorHeap.cpp:337-340 | each table starts at the sum of the sizes of the tables before it |
| DynamicDescriptors.ExtentFits | MiniEngine/Core/DynamicDescriptorHeap.cpp:306-312 | a table's extent never exceeds its size |
| DynamicDescriptors.Placed | MiniEngine/Core/DynamicDescriptorHeap.cpp:335-338 | parsing clears a table's assigned map and records its size |
| DynamicDescriptors.PlacedBelow | MiniEngine/Core/DynamicDescriptorHeap.cpp:328-341 | parsing changes only the tables of the signature |
| DynamicDescriptors.PlacedBelowAt | MiniEngine/Core/DynamicDescriptorHeap.cpp:328-341 | each signature table below the scan position is reset to the parsed size; every other table is untouched |
| DynamicDescriptors.ParsedLaidOut | MiniEngine/Core/DynamicDescriptorHeap.cpp:316-346 | after parsing, the tables are laid out one after another in index order and fill the cache size |
| DynamicDescriptors.ParsedSums | MiniEngine/Core/DynamicDescriptorHeap.cpp:328-343 | the cache size is the sum of the signature's table sizes |
| DynamicDescriptors.EmptyLaidOut | MiniEngine/Core/DynamicDescriptorHeap.h:119-124 | a cleared cache is trivially laid out |
| DynamicDescriptors.AssignKeepsLayout | MiniEngine/Core/DynamicDescriptorHeap.cpp:312 | assigning handles inside a table keeps the layout |
| DynamicDescriptors.StageFits | MiniEngine/Core/DynamicDescriptorHeap.cpp:303-314 | handles staged inside a table land inside the cache |
| DynamicDescriptors.StagedAtLeastMember | MiniEngine/Core/DynamicDescriptorHeap.cpp:127-144 | the staged size is at least each stale table's extent |
| DynamicDescriptors.StagedSizeBounds | MiniEngine/Core/DynamicDescriptorHeap.cpp:127-144 | the staged size is at most the cache size, and 0 exactly when nothing is stale |
| DynamicDescriptors.DescriptorHandleCache.constructor | MiniEngine/Core/DynamicDescriptorHeap.h:114-117 | the constructor clears the cache |
| DynamicDescriptors.DescriptorHandleCache.ClearCache | MiniEngine/Core/DynamicDescriptorHeap.h:119-124 | no tables, nothing stale, cache size 0 |
| DynamicDescriptors.DescriptorHandleCache.StageDescriptorHandles | MiniEngine/Core/DynamicDescriptorHeap.cpp:303-314 | the handles are copied to the table's slots and nothing else in the handle cache changes, the assigned map gains exactly [offset, offset + n) and the table becomes stale |
| DynamicDescriptors.DescriptorHandleCache.ScanStaleTables | MiniEngine/Core/DynamicDescriptorHeap.cpp:157-172 | the loop lists the stale tables in ascending order with their extents, and sums them to the staged size |
| DynamicDescriptors.DescriptorHandleCache.ComputeStagedSize | MiniEngine/Core/DynamicDescriptorHeap.cpp:127-144 | the staged size, within the cache size and 0 exactly when nothing is stale |
| DynamicDescriptors.DescriptorHandleCache.CopyAndBindStaleTables | MiniEngine/Core/DynamicDescriptorHeap.cpp:146-247 | binds every stale table, in ascending order, back to back from the destination start, clears the stale set, and copies into each bound table's slots exactly the handles its assigned bits select from the handle cache (BoundCopies of the bindings) |
| DynamicDescriptors.DescriptorHandleCache.TablesWithHandles | MiniEngine/Core/DynamicDescriptorHeap.cpp:293-300 | exactly the signature's tables that have assigned handles |
| DynamicDescriptors.DescriptorHandleCache.UnbindAllValid | MiniEngine/Core/DynamicDescriptorHeap.cpp:289-301 | marks stale exactly the tables that hold assigned handles |
| DynamicDescriptors.DescriptorHandleCache.PlaceTables | MiniEngine/Core/DynamicDescriptorHeap.cpp:326-341 | the loop lays the tables out in index order and returns the total size |
| DynamicDescriptors.DescriptorHandleCache.ParseRootSignature | MiniEngine/Core/DynamicDescriptorHeap.cpp:316-346 | takes the sampler or CBV/SRV/UAV table map, clears the stale set, lays the tables out and records the total as the cache size |
| DynamicDescriptors.BindTables | MiniEngine/Core/DynamicDescriptorHeap.cpp:188-241 | the binding loop's bindings equal the Bindings specification and its copies equal BoundCopies of those bindings over the handle cache |
| DynamicDescriptors.CopyTable | MiniEngine/Core/DynamicDescriptorHeap.cpp:193-240 | the scan of one table's assigned bits copies, lowest bit first, the handle cached at the table start plus b into destination slot b, for every assigned bit b and no other |
| DynamicDescriptors.TableCopiesAt | MiniEngine/Core/DynamicDescriptorHeap.cpp:201-240 | the k-th copy of a table goes to the destination plus the k-th assigned bit and carries the handle cached at the table start plus that bit |
| DynamicDescriptors.TableCopiesHold | MiniEngine/Core/DynamicDescriptorHeap.cpp:201-240 | every assigned bit of a table is copied to its slot with its cached handle |
| DynamicDescriptors.TableCopiesInBinding | MiniEngine/Core/DynamicDescriptorHeap.cpp:193-240 | a table's copies go to increasing slots, all inside the TableSize slots bound to it |
| DynamicDescriptors.BoundCopiesAppend | MiniEngine/Core/DynamicDescriptorHeap.cpp:188-198 | binding one more table appends exactly that table's copies |
| DynamicDescriptors.BoundCopiesHold | MiniEngine/Core/DynamicDescriptorHeap.cpp:188-240 | for every bound table and every assigned bit b, the slot at the table's binding plus b receives the handle cached at the table's start plus b |
| DynamicHeap.HeapPool.constructor | MiniEngine/Core/DynamicDescriptorHeap.cpp:28-30 | the shared pool, retired queue and available queue start empty |
| DynamicHeap.HeapPool.RequestDescriptorHeap | MiniEngine/Core/DynamicDescriptorHeap.cpp:32-62 | the same recycle-then-reuse-or-create order as the linear allocator's page manager (LinearAlloc.Requested, with its RequestedFifo lemma) |
| DynamicHeap.HeapPool.DiscardDescriptorHeaps | MiniEngine/Core/DynamicDescriptorHeap.cpp:64-70 | every used heap is queued behind the retired heaps with the fence value |
| DynamicHeap.DynamicDescriptorHeap.constructor | MiniEngine/Core/DynamicDescriptorHeap.cpp:93-99 | no current heap, offset 0, no retired heaps and two cleared handle caches |
| DynamicHeap.DynamicDescriptorHeap.HasSpace | MiniEngine/Core/DynamicDescriptorHeap.h:148-151 | true iff there is a current heap and count more descriptors fit in its 1024 |
| DynamicHeap.DynamicDescriptorHeap.RetireCurrentHeap | MiniEngine/Core/DynamicDescriptorHeap.cpp:72-85 | an unused heap (offset 0) is not retired; a used one is appended to the retired list; either way no heap is current and the offset is 0 |
| DynamicHeap.DynamicDescriptorHeap.RetireUsedHeaps | MiniEngine/Core/DynamicDescriptorHeap.cpp:87-91 | every retired heap goes to the shared queue with the fence value and the local list is emptied |
| DynamicHeap.DynamicDescriptorHeap.CleanupUsedHeaps | MiniEngine/Core/DynamicDescriptorHeap.cpp:105-111 | the current heap, if used, and the retired heaps are queued with the fence, and both handle caches are cleared |
| DynamicHeap.DynamicDescriptorHeap.GetHeapPointer | MiniEngine/Core/DynamicDescriptorHeap.cpp:113-125 | keeps a current heap; otherwise requests one from the pool and points the first descriptor at its start; the offset is unchanged |
| DynamicHeap.DynamicDescriptorHeap.Allocate | MiniEngine/Core/DynamicDescriptorHeap.h:157-162 | returns the handle at the current offset and moves the offset by count |
| DynamicHeap.DynamicDescriptorHeap.UnbindAllValid | MiniEngine/Core/DynamicDescriptorHeap.cpp:265-269 | both caches mark stale exactly their tables with assigned handles |
| DynamicHeap.DynamicDescriptorHeap.UploadDirect | MiniEngine/Core/DynamicDescriptorHeap.cpp:271-287 | without room, retires the heap and marks both caches stale; the descriptor goes to the next slot, whose GPU address is returned, and the offset grows by one; with room, both caches' stale sets are unchanged |
| DynamicHeap.DynamicDescriptorHeap.MakeRoom | MiniEngine/Core/DynamicDescriptorHeap.cpp:252-258 | when the staged tables do not fit, retires the heap and re-marks every table with handles stale in both caches; otherwise neither cache's stale set changes; afterwards the staged size fits |
| DynamicHeap.DynamicDescriptorHeap.CopyAndBindStagedTables | MiniEngine/Core/DynamicDescriptorHeap.cpp:249-263 | binds every stale table back to back from the allocation start, copies their handles there (BoundCopies of the bindings) and clears the stale set; the heap is kept when the tables fit and retired otherwise, in which case every table with handles is re-bound and the other cache's tables with handles are marked stale; when the tables fit the other cache is untouched |
| DynamicHeap.DynamicDescriptorHeap.CommitRootDescriptorTables | MiniEngine/Core/DynamicDescriptorHeap.h:69-79 | with nothing stale nothing changes and nothing is bound or copied; otherwise CopyAndBindStagedTables runs: the other cache is untouched when the tables fit, and re-marked stale after a retire |
| DynamicHeap.DynamicDescriptorHeap.SetDescriptorHandles | MiniEngine/Core/DynamicDescriptorHeap.h:44-52 | the handles land in the table's cache slots, the table's assigned bits grow by exactly the range and it becomes stale |
| DynamicHeap.DynamicDescriptorHeap.ParseRootSignature | MiniEngine/Core/DynamicDescriptorHeap.h:58-66 | the chosen cache takes the signature's table map and total size, with nothing stale |
| DynamicHeap.DynamicDescriptorHeap.BindBlock | MiniEngine/Core/DynamicDescriptorHeap.cpp:261-262 | allocates the staged size at the current offset, binds the stale tables there and copies their cached handles into the bound slots; the other cache's stale set is unchanged |
| PixelFormats.GetBaseFormat | MiniEngine/Core/PixelBuffer.cpp:25-70 | the base format stays in the same depth family and is either the format itself or one of the family's typeless formats |
| PixelFormats.GetUAVFormat | MiniEngine/Core/PixelBuffer.cpp:72-113 | a UAV format is never typeless, sRGB or refused, for every format the debug assertion lets through |
| PixelFormats.GetDSVFormat | MiniEngine/Core/PixelBuffer.cpp:115-148 | a depth format maps to its family's D-format (same family, same base); any other format is returned unchanged |
| PixelFormats.GetDepthFormat | MiniEngine/Core/PixelBuffer.cpp:150-183 | a depth SRV format exists exactly for the depth families and shares their family and base |
| PixelFormats.GetStencilFormat | MiniEngine/Core/PixelBuffer.cpp:185-206 | a stencil SRV format exists exactly for the two families with a stencil plane (not for 32-bit or 16-bit Z alone) |
| PixelFormats.BytesPerPixel | MiniEngine/Core/PixelBuffer.cpp:211-310 | one of 0, 1, 2, 4, 8, 12, 16, and 0 exactly for UNKNOWN and unlisted formats |
| PixelFormats.BaseIdempotent | MiniEngine/Core/PixelBuffer.cpp:25-70 | GetBaseFormat is idempotent |
| PixelFormats.BaseKeepsSize | MiniEngine/Core/PixelBuffer.cpp:25-70 | a format and its base have the same bytes per pixel (also MiniEngine/Core/PixelBuffer.cpp:211-310) |
| PixelFormats.SameBaseSameSize | MiniEngine/Core/PixelBuffer.cpp:25-70 | formats with the same base have the same bytes per pixel (also MiniEngine/Core/PixelBuffer.cpp:211-310) |
| PixelFormats.DsvThroughBase | MiniEngine/Core/PixelBuffer.cpp:25-148 | for depth formats, GetDSVFormat(GetBaseFormat(f)) == GetDSVFormat(f) |
| PixelFormats.ViewsThroughBase | MiniEngine/Core/PixelBuffer.cpp:25-70 | the depth and stencil view formats are the same for a format and its base (also MiniEngine/Core/PixelBuffer.cpp:150-206) |
| PixelFormats.SameBaseSameViews | MiniEngine/Core/PixelBuffer.cpp:25-70 | depth formats with the same base share their DSV, depth and stencil view formats (also MiniEngine/Core/PixelBuffer.cpp:115-206) |
| PixelFormats.UavIdempotent | MiniEngine/Core/PixelBuffer.cpp:72-113 | GetUAVFormat is idempotent |
| PixelFormats.UavKeepsBase | MiniEngine/Core/PixelBuffer.cpp:25-113 | the UAV format stays in the format's base family |
| PixelFormats.PixelBuffer.constructor | MiniEngine/Core/PixelBuffer.h:23 | an empty buffer of unknown format |
| PixelFormats.PixelBuffer.DescribeTex2D | MiniEngine/Core/PixelBuffer.cpp:334-355 | records width, height, array size and format, and describes a single-sample 2D texture of the base format with the 16-bit truncated array size and mip count |
| ColorBuffers.Or | MiniEngine/Core/ColorBuffer.h:99 | Width \ | Height is zero only when both are |
| ColorBuffers.MipLevels | MiniEngine/Core/ColorBuffer.h:92-95 | halving a dimension down to 1 takes at least one level |
| ColorBuffers.OrMsb | MiniEngine/Core/ColorBuffer.h:99 | the highest set bit of w \ | h is that of the larger dimension |
| ColorBuffers.MipLevelsMsb | MiniEngine/Core/ColorBuffer.h:92-101 | the number of halvings to 1 equals the highest set bit plus one |
| ColorBuffers.ComputeNumMips | MiniEngine/Core/ColorBuffer.h:96-101 | between 1 and 32, with 2^(r-1) <= max(w, h) < 2^r |
| ColorBuffers.NumMipsIsChain | MiniEngine/Core/ColorBuffer.h:92-101 | the bit-scan result is the length of the halving chain of the larger dimension, down to 1x1 |
| ColorBuffers.NineLevels | MiniEngine/Core/ColorBuffer.h:94-95 | every dimension from 256 to 511 gives 9 levels |
| ColorBuffers.ColorBuffer.constructor | MiniEngine/Core/ColorBuffer.h:25-32 | no extra mips, one fragment and one sample, and every view handle unknown |
| ColorBuffers.ColorBuffer.SetMsaaMode | MiniEngine/Core/ColorBuffer.h:66-71 | stores the colour and coverage sample counts; coverage must be at least colour |
| ColorBuffers.ColorBuffer.CombineResourceFlags | MiniEngine/Core/ColorBuffer.h:82-90 | render target alone, or render target plus unordered access |
| ColorBuffers.ColorBuffer.CombinedFlags | MiniEngine/Core/ColorBuffer.h:82-90 | the flags always allow a render target, and allow unordered access iff there is one fragment |
| ColorBuffers.ColorBuffer.DescribeCreate | MiniEngine/Core/ColorBuffer.cpp:113-121 | 0 mips means the full chain; the description carries the combined flags, the base format, a single array slice and the fragment count as sample count |
| PipelineState.Unknowns | MiniEngine/Core/PipelineState.cpp:96-97 | count slots, every one UNKNOWN |
| PipelineState.GraphicsPSO.constructor | MiniEngine/Core/PipelineState.cpp:37-45 | a zeroed description with node mask 1, every sample enabled, one sample and an empty input layout |
| PipelineState.GraphicsPSO.SetSampleMask | MiniEngine/Core/PipelineState.cpp:62-65 | stores the sample mask |
| PipelineState.GraphicsPSO.SetPrimitiveTopologyType | MiniEngine/Core/PipelineState.cpp:67-71 | stores any topology except UNDEFINED, which is rejected |
| PipelineState.GraphicsPSO.SetPrimitiveRestart | MiniEngine/Core/PipelineState.cpp:73-76 | stores the strip-cut value |
| PipelineState.GraphicsPSO.SetRenderTargetFormats | MiniEngine/Core/PipelineState.cpp:88-102 | the first NumRTVs formats are copied (each must be known), every later slot reads UNKNOWN, and the count, DSV format and MSAA count and quality are stored |
| PipelineState.GraphicsPSO.SetRenderTargetFormat | MiniEngine/Core/PipelineState.cpp:83-86 | exactly one render target of the given format, the rest UNKNOWN |
| PipelineState.GraphicsPSO.SetDepthTargetFormat | MiniEngine/Core/PipelineState.cpp:78-81 | no render targets, every slot UNKNOWN, the DSV format stored |
| PipelineState.GraphicsPSO.SetInputLayout | MiniEngine/Core/PipelineState.cpp:104-116 | stores the count, and a copy of exactly that many elements, or no layout for 0 |
| SortKeys.Unpack | MiniEngine/Model/Renderer.h:117-130 | reading the bitfields of a 64-bit value gives fields that fit their widths |
| SortKeys.Pack | MiniEngine/Model/Renderer.h:117-130 | writing the four bitfields: object index in bits 0-15, PSO index in bits 16-27, key in bits 28-59 and pass ID in bits 60-63 |
| SortKeys.UnpackPack | MiniEngine/Model/Renderer.h:117-130 | writing the four bitfields and reading them back gives the same fields, within 64 bits |
| SortKeys.PackUnpack | MiniEngine/Model/Renderer.h:117-130 | every 64-bit value is the packing of its own bitfields |
| SortKeys.PassMonotone | MiniEngine/Model/Renderer.cpp:535-539 | ascending key values have non-decreasing pass IDs |
| SortKeys.EarlierPassSortsFirst | MiniEngine/Model/Renderer.cpp:535-539 | every key of an earlier pass sorts before every key of a later one: Z, then opaque, then transparent |
| SortKeys.SmallerKeySortsFirst | MiniEngine/Model/Renderer.cpp:535-539 | within a pass a smaller distance key sorts first, whatever the PSO and object fields |
| SortKeys.FartherTransparentFirst | MiniEngine/Model/Renderer.cpp:502-539 | with key = ~dist, a farther transparent mesh sorts before a nearer one |
| SortKeys.TallyBound | MiniEngine/Model/Renderer.cpp:611-613 | at most all keys lie in a range of passes, and all of them when every key does |
| SortKeys.TallyAppend | MiniEngine/Model/Renderer.cpp:497-528 | the per-pass counts of two key lists add up |
| SortKeys.TallyPush | MiniEngine/Model/Renderer.cpp:497-528 | pushing a key raises only its own pass's count |
| SortKeys.TallySplit | MiniEngine/Model/Renderer.cpp:611-613 | the count over a pass range splits at any middle pass |
| SortKeys.SortedPassPrefix | MiniEngine/Model/Renderer.cpp:611-650 | in sorted keys, the keys of passes below p are exactly the first Tally(0, p) |
| SortKeys.SortedPassBlock | MiniEngine/Model/Renderer.cpp:611-650 | in sorted keys, pass q's keys are the contiguous block that starts after the earlier passes' counts |
| SortKeys.Insert | MiniEngine/Model/Renderer.cpp:535-539 | insertion keeps every element and adds exactly one |
| SortKeys.InsertSorted | MiniEngine/Model/Renderer.cpp:535-539 | inserting into a sorted list keeps it sorted |
| SortKeys.InsertTally | MiniEngine/Model/Renderer.cpp:535-539 | inserting a key raises only its pass's count |
| SortKeys.SortValues | MiniEngine/Model/Renderer.cpp:535-539 | the sort is a permutation of the keys |
| SortKeys.SortValuesSpec | MiniEngine/Model/Renderer.cpp:535-539 | the sorted keys are ascending and keep every pass's count |
| MeshSorting.DepthPsoIndex | MiniEngine/Model/Renderer.cpp:481-484 | the depth PSO slot (2 if skinned, plus 1 if alpha-tested) is one of the four depth PSOs |
| MeshSorting.DepthSlotsMatch | MiniEngine/Model/Renderer.cpp:128-189 | slot DepthPsoIndex (plus 4 for shadows) of the library holds the depth-only PSO with that skinning, cutout and shadow choice (also MiniEngine/Model/Renderer.cpp:481-484) |
| MeshSorting.PsoLibrary.constructor | MiniEngine/Model/Renderer.cpp:128-189 | the library starts with exactly the eight depth PSOs: four for depth, four for shadows |
| MeshSorting.PsoLibrary.GetPSO | MiniEngine/Model/Renderer.cpp:313-437 | an already-known colour PSO returns its first index and leaves the library unchanged; a new one appends the PSO and its equal-depth twin and returns the index of the first; the index is at least 8 and index+1 holds the equal-depth twin; the 256-entry limit is a precondition |
| MeshSorting.NewKeysIndexed | MiniEngine/Model/Renderer.cpp:477-531 | every key a mesh adds names the new object's index and a valid pass |
| MeshSorting.KeyReadBack | MiniEngine/Model/Renderer.h:117-130 | a packed key fitting its fields reads back its object index and pass |
| MeshSorting.RoutedKeys | MiniEngine/Model/Renderer.cpp:487-528 | the keys per case: blended meshes add none to a shadow batch; a shadow key is Z pass, PSO slot+4, distance; a blended mesh is one transparent key with the inverted distance; alpha-tested or separate-Z meshes add a Z key and an opaque key with PSO+1; otherwise one opaque key |
| MeshSorting.DrawCalls | MiniEngine/Model/Renderer.cpp:683-684 | one indexed draw per draw entry of the mesh |
| MeshSorting.DrawCallsPlain | MiniEngine/Model/Renderer.cpp:683-684 | the draw loop issues only DrawIndexed commands, no state changes |
| MeshSorting.KeysIndexedGrow | MiniEngine/Model/Renderer.cpp:477-531 | adding a mesh keeps every key pointing at a held object |
| MeshSorting.SkeletonsGrow | MiniEngine/Model/Renderer.cpp:530-531 | every skinned object has a skeleton, and adding such objects keeps it so (also MiniEngine/Model/Renderer.cpp:660-664) |
| MeshSorting.SortKeepsIndexed | MiniEngine/Model/Renderer.cpp:535-539 | sorting keeps every key pointing at a held object |
| MeshSorting.KeyDrawable | MiniEngine/Model/Renderer.cpp:652-664 | every key the draw loop reads is a 64-bit value whose object exists, with a skeleton when skinned |
| MeshSorting.KeysStep | MiniEngine/Model/Renderer.cpp:648-687 | drawing key i extends the command log by that key's commands |
| MeshSorting.SetupCommands | MiniEngine/Model/Renderer.cpp:613-643 | a pass's setup emits only transitions and render-target bindings |
| MeshSorting.SetupReplay | MiniEngine/Model/Renderer.cpp:615-643 | after a pass's setup the depth target is in DEPTH_WRITE (Z pass, or opaque without a separate Z pass) or DEPTH_READ, and the scene colour is a render target, with no split transitions left open; a shadow batch changes nothing here |
| MeshSorting.PassStart | MiniEngine/Model/Renderer.cpp:611-648 | the draw index where pass q starts lies within the keys |
| MeshSorting.PassPieces | MiniEngine/Model/Renderer.cpp:611-690 | pass q starts after the earlier passes' counts; an empty pass emits nothing; a non-empty pass emits its setup and then exactly its own keys' commands |
| MeshSorting.PassesStep | MiniEngine/Model/Renderer.cpp:611-690 | rendering one more pass appends that pass's commands |
| MeshSorting.PassSetup | MiniEngine/Model/Renderer.cpp:613-644 | an empty pass is skipped; a non-empty pass of a default batch first sets its depth and colour targets in the states the pass draws in |
| MeshSorting.Preamble | MiniEngine/Model/Renderer.cpp:565-569 | a shadow batch opens by making its depth target writable, clearing it and binding it alone |
| MeshSorting.Postamble | MiniEngine/Model/Renderer.cpp:692-695 | a shadow batch ends by making its depth target readable by pixel shaders |
| MeshSorting.RenderLog | MiniEngine/Model/Renderer.cpp:541-696 | the commands RenderMeshes logs: the preamble, then each pass's setup and draws in pass order, then the postamble |
| MeshSorting.SetupsStep | MiniEngine/Model/Renderer.cpp:611-643 | one more pass applies that pass's setup transitions to the resource states |
| MeshSorting.SetupsReplay | MiniEngine/Model/Renderer.cpp:611-643 | the resource states after several passes are those after their setups in order |
| MeshSorting.SortedRunIsPass | MiniEngine/Model/Renderer.cpp:611-690 | after sorting, the run of keys pass q draws holds exactly the keys of pass q |
| MeshSorting.RenderReplay | MiniEngine/Model/Renderer.cpp:560-570 | the preamble, the passes and the postamble together give the whole render log and the resource states its transitions produce (also MiniEngine/Model/Renderer.cpp:611-695) |
| MeshSorting.KeyCommandsPlain | MiniEngine/Model/Renderer.cpp:652-687 | drawing one key emits bindings and draws only, no transitions |
| MeshSorting.KeysCommandsPlain | MiniEngine/Model/Renderer.cpp:648-687 | the draw loop over a run of keys emits no transitions |
| MeshSorting.ScissorPastTarget | MiniEngine/Model/Renderer.cpp:604-607 | as written, the default scissor of a 1920x1080 target has a bottom of 1920, past the target's height |
| MeshSorting.ScissorAsWritten | MiniEngine/Model/Renderer.cpp:579-582 | the default scissor as written, with uint32 sizes stored into the LONG edges: a shadow batch gets (1, 1, w - 2, h - 2) as signed values, negative for a target narrower or shorter than 2 |
| MeshSorting.ShadowScissorNegative | MiniEngine/Model/Renderer.cpp:580 | a shadow target one texel wide gets the right edge -1 |
| MeshSorting.ScissorWithinTarget | MiniEngine/Model/Renderer.cpp:565-607 | the corrected default scissor lies inside the depth target: the full target for the default batch, inset (1,1)-(w-2,h-2) for shadows |
| MeshSorting.MeshSorter.constructor | MiniEngine/Model/Renderer.h:76-90 | a new sorter has no objects or keys, zero pass counts, the Z pass current, draw 0, no targets and an empty viewport |
| MeshSorting.MeshSorter.SetViewport | MiniEngine/Model/Renderer.h:92 | sets the viewport |
| MeshSorting.MeshSorter.SetScissor | MiniEngine/Model/Renderer.h:93 | sets the scissor |
| MeshSorting.MeshSorter.AddRenderTarget | MiniEngine/Model/Renderer.h:94-98 | appends a render target, at most eight |
| MeshSorting.MeshSorter.SetDepthStencilTarget | MiniEngine/Model/Renderer.h:99 | sets the depth target |
| MeshSorting.MeshSorter.PushKey | MiniEngine/Model/Renderer.cpp:497-528 | pushing a key appends its packed value and raises only its pass's count |
| MeshSorting.MeshSorter.AddMesh | MiniEngine/Model/Renderer.cpp:472-533 | the keys grow by exactly the routed keys of the mesh; the object list grows by the mesh unless it is a blended mesh in a shadow batch; skeleton and pass-count invariants are kept |
| MeshSorting.MeshSorter.PushMeshKeys | MiniEngine/Model/Renderer.cpp:487-528 | pushes the routed keys and reports whether the object is kept |
| MeshSorting.MeshSorter.Sort | MiniEngine/Model/Renderer.cpp:535-539 | the keys become ascending and a permutation of the old keys |
| MeshSorting.MeshSorter.DrawKey | MiniEngine/Model/Renderer.cpp:652-687 | binds and draws one key's object, appending exactly its commands |
| MeshSorting.MeshSorter.Bind | MiniEngine/Model/Renderer.cpp:656-679 | binds the constants, tables, skin matrices, PSO, vertex and index buffers, choosing the depth stream in the Z pass |
| MeshSorting.MeshSorter.IssueDraws | MiniEngine/Model/Renderer.cpp:683-684 | issues one indexed draw per draw entry |
| MeshSorting.MeshSorter.DrawRun | MiniEngine/Model/Renderer.cpp:648-687 | draws keys from the current draw up to lastDraw and leaves the current draw there |
| MeshSorting.MeshSorter.SetupPass | MiniEngine/Model/Renderer.cpp:613-643 | emits the pass's setup and applies its transitions |
| MeshSorting.MeshSorter.RenderPass | MiniEngine/Model/Renderer.cpp:611-690 | renders the current pass (skipping it when empty) and advances to the next one |
| MeshSorting.MeshSorter.DefaultViewportAndScissor | MiniEngine/Model/Renderer.cpp:565-607 | an unset viewport becomes the depth target's full size, with the corrected default scissor; a set one is kept |
| MeshSorting.MeshSorter.RenderMeshes | MiniEngine/Model/Renderer.cpp:541-696 | renders every pass from the current one up to the requested one: the command log grows by exactly the render log of those passes, resource states follow its transitions, and a shadow batch leaves its depth target readable by pixel shaders |
| MeshSorting.MeshSorter.BeginBatch | MiniEngine/Model/Renderer.cpp:565-569 | a shadow batch makes its depth target writable, clears it and binds it; a default batch emits nothing |
| MeshSorting.MeshSorter.EndBatch | MiniEngine/Model/Renderer.cpp:692-695 | a shadow batch ends with its depth target in PIXEL_SHADER_RESOURCE |
| MeshSorting.MeshSorter.RenderPasses | MiniEngine/Model/Renderer.cpp:611-690 | the pass loop appends the commands of each pass from the current one to the requested one |
| MeshSorting.MeshSorter.NextPass | MiniEngine/Model/Renderer.cpp:611-690 | one loop iteration keeps the log equal to the render log of the passes done so far |
| GraphRender.PaletteColor | MiniEngine/Core/GraphRenderer.cpp:115-119 | each channel is one bit of key + 1: red 0 or 1, green and blue 0.3 or 1.3 |
| GraphRender.PalettePeriodic | MiniEngine/Core/GraphRenderer.cpp:115-119 | only three bits of the key are read, so the colours repeat every eight keys |
| GraphRender.PaletteDistinct | MiniEngine/Core/GraphRenderer.cpp:108-119 | the first eight colour keys get eight different colours |
| GraphRender.KeysBelow | MiniEngine/Core/GraphRenderer.cpp:111-114 | the free-key stack starts as 0, 1, ..., MaxActiveGraphs-1 in push order |
| GraphRender.MaxOrZeroSpec | MiniEngine/Core/GraphRenderer.cpp:178-187 | the global preset maximum is at least 0, at least every preset, and either 0 or one of the presets |
| GraphRender.PopKeepsApart | MiniEngine/Core/GraphRenderer.cpp:158-159 | handing the top free key to a hidden graph keeps all keys distinct, in range, and never both free and held |
| GraphRender.PushKeepsApart | MiniEngine/Core/GraphRenderer.cpp:165 | returning a shown graph's key to the stack keeps all keys distinct, in range, and never both free and held |
| GraphRender.PerfGraph.constructor | MiniEngine/Core/GraphRenderer.cpp:55-60 | a new graph has the given node count, variable count, colour and shown flag, and one NodeCount-long time buffer per variable |
| GraphRender.PerfGraph.Show | MiniEngine/Core/GraphRenderer.cpp:155-160 | marks the graph shown with the given colour key and colour |
| GraphRender.PerfGraph.Hide | MiniEngine/Core/GraphRenderer.cpp:166 | marks the graph hidden |
| GraphRender.PerfGraph.UpdateGraph | MiniEngine/Core/GraphRenderer.cpp:71-75 | writes each variable's time stamp into slot frameID mod NodeCount of its ring buffer and leaves every other slot unchanged |
| GraphRender.GraphVector.constructor | MiniEngine/Core/GraphRenderer.cpp:106-136 | no graph is active, the free-key stack holds every key, key i has palette colour i, presets are 30, maxima 0 and minima the error value |
| GraphRender.GraphVector.AddGraph | MiniEngine/Core/GraphRenderer.cpp:143-148 | appends the graph and returns its index, the old size |
| GraphRender.GraphVector.Toggle | MiniEngine/Core/GraphRenderer.cpp:150-170 | a hidden graph is shown when fewer than MaxActiveGraphs are, taking the top free key and its colour; a shown graph is hidden and its key pushed back; otherwise nothing changes; returns the new shown flag |
| GraphRender.GraphVector.ShowGraph | MiniEngine/Core/GraphRenderer.cpp:152-161 | shows a graph: one more active, top free key popped into it, palette colour set |
| GraphRender.GraphVector.HideGraph | MiniEngine/Core/GraphRenderer.cpp:162-168 | hides a graph: one fewer active, its key pushed back, key and colour kept |
| GraphRender.GraphVector.PresetMax | MiniEngine/Core/GraphRenderer.cpp:193-197 | the presets become the first DebugVarCount given values |
| GraphRender.GraphVector.GetGlobalPresetMax | MiniEngine/Core/GraphRenderer.cpp:178-187 | returns the largest preset, or 0 when none is positive |
| TextureRefs.CacheKey | MiniEngine/Core/TextureManager.cpp:81-83 | the cache key is the file name, followed by "_sRGB" exactly when sRGB is forced |
| TextureRefs.CacheKeyInjective | MiniEngine/Core/TextureManager.cpp:81-86 | with the same sRGB choice, different file names never share a cache entry |
| TextureRefs.CacheKeyShared | MiniEngine/Core/TextureManager.cpp:81-86 | a file named "x_sRGB" without forcing and "x" with forcing share one cache entry |
| TextureRefs.ManagedTexture.constructor | MiniEngine/Core/TextureManager.cpp:121-125 | a new texture carries its key, is not valid, is loading, has no references and no descriptor |
| TextureRefs.ManagedTexture.CreateFromMemory | MiniEngine/Core/TextureManager.cpp:127-155 | an empty file gives the fallback texture's descriptor and leaves validity unchanged; otherwise a new descriptor is allocated and the texture becomes valid if the DDS loads; loading ends either way |
| TextureRefs.TextureManager.constructor | MiniEngine/Core/TextureManager.cpp:59-60 | the cache starts empty |
| TextureRefs.TextureManager.Initialize | MiniEngine/Core/TextureManager.cpp:62-65 | records the texture root path |
| TextureRefs.TextureManager.Shutdown | MiniEngine/Core/TextureManager.cpp:67-70 | empties the cache |
| TextureRefs.TextureManager.FindOrLoadTexture | MiniEngine/Core/TextureManager.cpp:74-107 | afterwards the key maps to the returned texture; a cached texture is returned with the cache unchanged; otherwise a fresh texture under that key is added, with no references, loaded from the file's bytes |
| TextureRefs.TextureManager.DestroyTexture | MiniEngine/Core/TextureManager.cpp:109-117 | removes the key from the cache, if present |
| TextureRefs.TextureRef.constructor | MiniEngine/Core/TextureManager.cpp:174-178 | wrapping a texture adds one reference to it |
| TextureRefs.TextureRef.Copy | MiniEngine/Core/TextureManager.cpp:168-172 | copying a handle adds one reference to the shared texture |
| TextureRefs.TextureRef.Release | MiniEngine/Core/TextureManager.cpp:163-184 | dropping a handle removes its reference and unloads the texture from the cache when that was the last one |
| TextureRefs.TextureRef.AssignNull | MiniEngine/Core/TextureManager.cpp:186-192 | assigning null drops the reference, without unloading |
| TextureRefs.TextureRef.Assign | MiniEngine/Core/TextureManager.cpp:194-203 | assignment moves the handle's reference from its old texture to the right-hand side's; self-assignment leaves counts unchanged |
| TextureRefs.NullRefDefaults | MiniEngine/Core/TextureManager.cpp:205-227 | an empty handle is not valid and yields the magenta default texture |
| Animation.Clamp | MiniEngine/Model/Animation.cpp:123 | the clamped progress lies within [lo, hi] and equals the input when already inside |
| Animation.FmodRange | MiniEngine/Model/Animation.cpp:105-108 | a looping animation's time, taken modulo the duration, lies in [0, duration) |
| Animation.StepKeepsInClip | MiniEngine/Model/Animation.cpp:95-113 | advancing by a non-negative delta keeps the time within [0, duration]; a stopped animation is left alone; a looping one keeps looping; a playing one that passes the end stops at time 0, and one that does not just advances |
| Animation.Step | MiniEngine/Model/Animation.cpp:95-113 | the time update: a stopped animation is skipped, a looping one wraps with fmod, a playing one past its end stops at time 0 |
| Animation.Sample | MiniEngine/Model/Animation.cpp:118-153 | the corrected sampling of one curve at a time: the segment and weight from the clamped progress, reading key frames within the curve |
| Animation.SampleAsWritten | MiniEngine/Model/Animation.cpp:120-129 | the sampling as written: the segment is the floor of the progress clamped to numSegments, and the two key frames read are that segment and the next |
| Animation.SampleAsWrittenPastEnd | MiniEngine/Model/Animation.cpp:123-129 | as written, at or past a curve's end the progress clamps to numSegments, so the second key frame read is number numSegments+1, one past the last |
| Animation.SampleInRange | MiniEngine/Model/Animation.cpp:121-129 | the corrected sampling reads two consecutive key frames, both within the curve's numSegments+1 frames, with a weight in [0, 1] |
| Animation.SampleAgrees | MiniEngine/Model/Animation.cpp:123-129 | before the end of a curve the corrected sampling is exactly the sampling as written |
| Animation.CurveUpdates | MiniEngine/Model/Animation.cpp:118-152 | one node update per curve of the animation |
| Animation.CurveUpdatesSample | MiniEngine/Model/Animation.cpp:115-152 | update k is the sample of curve firstCurve+k at the animation's time |
| Animation.StepsUpTo | MiniEngine/Model/Animation.cpp:95-113 | stepping the first i animations keeps one state per animation |
| Animation.StepsUpToAt | MiniEngine/Model/Animation.cpp:95-113 | after i iterations the first i states are stepped and the rest untouched |
| Animation.CurveStep | MiniEngine/Model/Animation.cpp:118-152 | one more curve appends its sample to the updates |
| Animation.AnimStep | MiniEngine/Model/Animation.cpp:95-153 | one more animation appends its curves' updates, or nothing when it is stopped |
| Animation.ResetStopAsWrittenInverted | MiniEngine/Model/Animation.cpp:168-181 | as written, the inverted guard leaves an in-range animation untouched and writes only out-of-range indices: index 0 of a one-element vector is not rewound or stopped, while index 1 is written out of bounds |
| Animation.ResetAsWritten | MiniEngine/Model/Animation.cpp:168-173 | ResetAnimation as written: it writes only when the index is at or past the end |
| Animation.StopAsWritten | MiniEngine/Model/Animation.cpp:174-181 | StopAnimation as written: the same inverted test |
| Animation.ModelInstance.constructor | MiniEngine/Model/Animation.h:56-62 | every animation starts stopped at time 0 |
| Animation.ModelInstance.PlayAnimation | MiniEngine/Model/Animation.cpp:156-160 | an index in range starts looping or playing from its current time; an out-of-range index is ignored |
| Animation.ModelInstance.PauseAnimation | MiniEngine/Model/Animation.cpp:162-166 | an index in range stops but keeps its time; an out-of-range index is ignored |
| Animation.ModelInstance.ResetAnimation | MiniEngine/Model/Animation.cpp:168-172 | the corrected reset rewinds an in-range animation to time 0 and keeps its mode; an out-of-range index is ignored |
| Animation.ModelInstance.StopAnimation | MiniEngine/Model/Animation.cpp:174-181 | the corrected stop puts an in-range animation stopped at time 0; an out-of-range index is ignored |
| Animation.ModelInstance.LoopAllAnimations | MiniEngine/Model/Animation.cpp:183-190 | every animation loops from time 0 |
| Animation.ModelInstance.UpdateAnimations | MiniEngine/Model/Animation.cpp:90-154 | every animation's state is stepped by the delta, and the node updates grow by exactly the corrected samples of every running animation's curves, in order; stopped animations need no valid clip, as the loop skips them |
| Animation.ModelInstance.StepAnimation | MiniEngine/Model/Animation.cpp:97-153 | steps one animation and appends its curves' updates when it was running; a stopped one is skipped whatever its clip holds |
| Animation.ModelInstance.UpdateCurves | MiniEngine/Model/Animation.cpp:115-152 | appends one sample per curve of the animation |
| GpuContext.StatesAfter | ModelViewer/MyRenderer.cpp:245-268 | replaying a command log never forgets a resource's state |
| GpuContext.ReplaySplit | ModelViewer/MyRenderer.cpp:245-268 | replaying a log in two pieces gives the same states and pending split transitions as replaying it whole |
| GpuContext.PlainKeepsStates | ModelViewer/MyRenderer.cpp:447-495 | a log of commands other than transitions leaves every resource state and pending split transition as it was |
| GpuContext.GraphicsContext.constructor | ModelViewer/MyRenderer.cpp:245 | a context starts with no commands, the given resource states and no split transition pending |
| GpuContext.GraphicsContext.Issue | ModelViewer/MyRenderer.cpp:281-287 | a command other than a transition is appended and changes no resource state |
| GpuContext.GraphicsContext.TransitionResource | ModelViewer/MyRenderer.cpp:248-255 | the transition is appended, the resource moves to the new state and any split transition of it ends |
| GpuContext.GraphicsContext.BeginResourceTransition | ModelViewer/MyRenderer.cpp:296-299 | the split barrier is appended and recorded as pending; the resource's usable state does not change yet |
| CommandReplay.Above | ModelViewer/MyRenderer.cpp:491 | binding a material table keeps only the shader registers at and above its size, unchanged |
| CommandReplay.Place | ModelViewer/MyRenderer.cpp:435-441 | dynamic descriptors put source i in register offset+i and keep every other register |
| CommandReplay.Apply | ModelViewer/MyRenderer.cpp:248-299 | only a transition changes a resource's usage state, and it ends any pending split transition; a begun transition is only pending |
| CommandReplay.ReplayAppend | ModelViewer/MyRenderer.cpp:245-268 | replaying two logs in turn is replaying their concatenation: same state, checked in both parts, dispatches concatenated |
| CommandReplay.ReplayStates | ModelViewer/MyRenderer.cpp:245-268 | the replayed usage and pending states are exactly what the recording context tracks |
| CommandReplay.MovesSettle | ModelViewer/MyRenderer.cpp:248-255 | transitions of distinct resources always succeed and leave each resource settled in its new state, without touching the others |
| CommandReplay.BeginsKeep | ModelViewer/MyRenderer.cpp:296-323 | beginning split transitions checks nothing and keeps every other resource settled |
| CommandReplay.DispatchRuns | ModelViewer/MyRenderer.cpp:438-444 | a dispatch runs only when its views are readable by compute shaders and its UAV is writable, and records the pipeline, constant and views it ran with |
| CommandReplay.ClearsChecked | ModelViewer/MyRenderer.cpp:256-261 | clears of resources already in their writable state succeed and change nothing |
| CommandReplay.LastBoundAppend | ModelViewer/MyRenderer.cpp:488-492 | the last material bound after two logs is the second log's, if it binds one, or else the first's |
| CommandReplay.DrawSideChecked | ModelViewer/MyRenderer.cpp:469-495 | a draw loop's commands succeed wherever a draw may run, and change only the pipeline and the material registers |
| FrameRenderer.DrawArgsExact | ModelViewer/MyRenderer.cpp:457-465 | under the draw loop's asserts the divisions are exact: the draw starts at a whole triangle of 16-bit indices and a whole vertex |
| FrameRenderer.MaterialBind | ModelViewer/MyRenderer.cpp:488-492 | a material bind names the mesh's material: a descriptor table in MyRenderer, dynamic descriptors in the other two versions |
| FrameRenderer.MeshLogCalls | ModelViewer/MyRenderer.cpp:476-495 | the draw loop issues only material binds and indexed draws |
| FrameRenderer.DepthLogCalls | ModelViewer/MyRenderer.cpp:453-466 | the depth loop issues only indexed draws |
| FrameRenderer.DrawLogCalls | ModelViewer/MyRenderer.cpp:469-495 | a model's draw issues only buffer bindings, material binds and draws |
| FrameRenderer.DepthDrawLogCalls | ModelViewer/Renderer.cpp:463-483 | a model's depth draw binds no material |
| FrameRenderer.DepthLogDraws | ModelViewer/Renderer.cpp:469-482 | the depth loop issues exactly one draw per mesh, in order, from the depth vertex stream in the ModelViewer versions |
| FrameRenderer.MeshStepKinds | ModelViewer/MyRenderer.cpp:476-495 | each mesh gets exactly one draw, and one bind exactly when its material differs from the previous mesh's |
| FrameRenderer.MeshLogDraws | ModelViewer/MyRenderer.cpp:476-495 | the draws of the draw loop are exactly the depth loop's draws from the full vertex stream |
| FrameRenderer.MeshStepBound | ModelViewer/MyRenderer.cpp:488-492 | a mesh rebinds its own material when it changes, and binds nothing otherwise |
| FrameRenderer.BoundAtEachDraw | ModelViewer/MyRenderer.cpp:474-494 | when mesh j is drawn, the material last bound is mesh j's |
| FrameRenderer.BindsPerRun | ModelViewer/MyRenderer.cpp:474-494 | the loop binds once per run of equal consecutive materials |
| FrameRenderer.CreatedBuffers | ModelViewer/MyRenderer.cpp:70-77 | Create makes exactly the six renderer buffers |
| FrameRenderer.CreatedRsmSquare | ModelViewer/MyRenderer.cpp:73-76 | the four RSM buffers are RSM_WIDTH squares, and the thread-group width divides RSM_WIDTH, as VSGL generation asserts (also ModelViewer/MyRenderer.cpp:392-400) |
| FrameChecks.ModelDrawsSide | ModelViewer/MyRenderer.cpp:287-294 | a model pass's draws are draw-loop commands only |
| FrameChecks.DepthDrawsSide | ModelViewer/MyRenderer.cpp:313-321 | a depth pass's draws are draw-loop commands only |
| FrameChecks.InitMovesChecked | ModelViewer/MyRenderer.cpp:248-255 | Render's opening transitions leave every target settled in the state it is written in, from any state |
| FrameChecks.InitClearsChecked | ModelViewer/MyRenderer.cpp:256-261 | every clear finds its target writable |
| FrameChecks.InitChecked | ModelViewer/MyRenderer.cpp:247-261 | Render's opening succeeds from any GPU state and leaves every target ready to be written |
| FrameChecks.RsmSetupReady | ModelViewer/MyRenderer.cpp:281-287 | after the RSM setup, draws may run: the three RSM colour targets and the RSM depth are writable |
| FrameChecks.RsmReleaseKeeps | ModelViewer/MyRenderer.cpp:296-299 | beginning the RSM's split transitions keeps the shadow map and scene targets writable |
| FrameChecks.RsmChecked | ModelViewer/MyRenderer.cpp:270-300 | the RSM pass succeeds after Render's opening and leaves the shadow map and scene targets writable |
| FrameChecks.ShadowSetupReady | ModelViewer/MyRenderer.cpp:308-313 | after the shadow setup, draws may run into the shadow map |
| FrameChecks.ShadowReleaseKeeps | ModelViewer/MyRenderer.cpp:323 | beginning the shadow map's split transition keeps the scene targets writable |
| FrameChecks.ShadowChecked | ModelViewer/MyRenderer.cpp:302-324 | the shadow pass succeeds after the RSM pass |
| FrameChecks.VsglTransitionsSettle | ModelViewer/MyRenderer.cpp:404-407 | VSGL generation completes the RSM's split transitions: all four RSM buffers become readable by compute shaders |
| FrameChecks.VsglBindState | ModelViewer/MyRenderer.cpp:408-426 | binding the compute root signature clears the registers and binds the light buffer as the UAV |
| FrameChecks.PlaceDiffuse | ModelViewer/MyRenderer.cpp:428-435 | the diffuse dispatch's registers 0 to 2 hold RSM depth, normal and diffuse |
| FrameChecks.PlaceSpecular | ModelViewer/MyRenderer.cpp:441 | the specular dispatch's register 2 holds RSM specular, the others unchanged |
| FrameChecks.DiffuseSet | ModelViewer/MyRenderer.cpp:435-437 | the diffuse settings bind the three views, constant 0 and the diffuse pipeline |
| FrameChecks.SpecularSet | ModelViewer/MyRenderer.cpp:441-443 | the specular settings rebind register 2, constant 1 and the specular pipeline |
| FrameChecks.VsglPrepared | ModelViewer/MyRenderer.cpp:404-426 | after the transitions and bindings, the RSM is readable, no register is bound and the light buffer is the UAV |
| FrameChecks.DiffuseReady | ModelViewer/MyRenderer.cpp:435-438 | the diffuse dispatch finds its views readable and its UAV writable |
| FrameChecks.SpecularReady | ModelViewer/MyRenderer.cpp:441-444 | the specular dispatch finds its views readable and its UAV writable |
| FrameChecks.DiffuseRuns | ModelViewer/MyRenderer.cpp:434-438 | the diffuse dispatch runs with the diffuse pipeline, constant 0 and RSM depth, normal and diffuse |
| FrameChecks.SpecularRuns | ModelViewer/MyRenderer.cpp:440-444 | the specular dispatch runs with the specular pipeline, constant 1 and RSM depth, normal and specular |
| FrameChecks.VsglChecked | ModelViewer/MyRenderer.cpp:390-445 | VSGL generation succeeds after the shadow pass and leaves the RSM readable and the scene targets writable |
| FrameChecks.VsglDispatches | ModelViewer/MyRenderer.cpp:390-445 | VSGL generation makes exactly two dispatches: the diffuse light, then the specular light |
| FrameChecks.DepthSetupReady | ModelViewer/MyRenderer.cpp:332-337 | after the depth setup, draws may run into the scene depth |
| FrameChecks.DepthPassChecked | ModelViewer/MyRenderer.cpp:326-346 | the depth pre-pass succeeds after VSGL generation |
| FrameChecks.LightingTransitionsSettle | ModelViewer/MyRenderer.cpp:352-354 | lighting moves the scene depth to read-only, the shadow map to pixel-shader reads and the light buffer to constant-buffer reads, each settled |
| FrameChecks.ShadowBound | ModelViewer/MyRenderer.cpp:377 | with no register bound, the shadow-map binding puts the shadow map in register MODEL_SRV_COUNT in every version (also ModelViewer/Renderer.cpp:393) |
| FrameChecks.LightingSetupState | ModelViewer/MyRenderer.cpp:370-379 | the lighting setup binds the light buffer as CBV, the shadow map after the materials, the scene colour with read-only depth, and the lighting pipeline (HSG when enabled) (also MiniEngine/ModelViewer/Renderer/Renderer.cpp:379-387) |
| FrameChecks.LightingSetupReady | ModelViewer/MyRenderer.cpp:370-379 | after the lighting setup, draws may run |
| FrameChecks.LightingChecked | ModelViewer/MyRenderer.cpp:348-387 | the lighting pass succeeds after the depth pre-pass and leaves every target settled |
| FrameChecks.FrameStages | ModelViewer/MyRenderer.cpp:245-268 | each pass of the frame succeeds in the state the previous one leaves, and only VSGL generation dispatches |
| FrameChecks.FrameChecked | ModelViewer/MyRenderer.cpp:245-268 | a whole frame, replayed from any GPU state, finds every resource in the state each clear, draw and dispatch needs, and ends with no split transition pending (also ModelViewer/Renderer.cpp:265-288, MiniEngine/ModelViewer/Renderer/Renderer.cpp:255-278) |
| FrameChecks.FrameDispatches | ModelViewer/MyRenderer.cpp:245-268 | a frame's only dispatches are the two VSGL generations, reading the RSM in the registers the shaders expect (also ModelViewer/Renderer.cpp:265-288, MiniEngine/ModelViewer/Renderer/Renderer.cpp:255-278) |
| FrameRecorder.Record | ModelViewer/MyRenderer.cpp:245-495 | recording one more call keeps the context's states equal to the replay of its log |
| FrameRecorder.PlainTracked | ModelViewer/MyRenderer.cpp:469-495 | draw-loop commands keep the context's states equal to the replay of its log |
| FrameRecorder.VsglCalls | ModelViewer/MyRenderer.cpp:404-444 | the VSGL log is exactly the calls VSGLGenerationPass makes, in order |
| FrameRecorder.LightingCalls | ModelViewer/MyRenderer.cpp:370-379 | the lighting setup is exactly the calls LightingPass makes, in order |
| FrameRecorder.CreateThenClear | ModelViewer/Renderer.cpp:74-81 | Create leaves the RSM buffers sized for VSGL generation, and Clear leaves none of them (also ModelViewer/Renderer.cpp:255-263) |
| FrameRecorder.Renderer.constructor | ModelViewer/Renderer.cpp:74 | a renderer starts with no buffers |
| FrameRecorder.Renderer.Create | ModelViewer/MyRenderer.cpp:70-77 | creates exactly the six buffers, the RSM ones RSM_WIDTH square (also ModelViewer/Renderer.cpp:74-81) |
| FrameRecorder.Renderer.Clear | ModelViewer/Renderer.cpp:255-263 | destroys the six buffers and nothing else; MyRenderer's Shutdown does the same (also ModelViewer/MyRenderer.cpp:235-243) |
| FrameRecorder.Renderer.Draw | ModelViewer/MyRenderer.cpp:469-495 | records exactly the draw loop's log for the model (also ModelViewer/Renderer.cpp:485-512) |
| FrameRecorder.Renderer.DrawDepth | ModelViewer/MyRenderer.cpp:447-467 | records exactly the depth loop's log for the model (also ModelViewer/Renderer.cpp:463-483) |
| FrameRecorder.Renderer.DrawModels | ModelViewer/MyRenderer.cpp:288-294 | draws the model, then the cutout model with its pipeline when it has meshes |
| FrameRecorder.Renderer.DrawDepthModels | ModelViewer/MyRenderer.cpp:314-321 | draws the model's depth, then the cutout model when it has meshes |
| FrameRecorder.Renderer.ReflectiveShadowMapPass | ModelViewer/MyRenderer.cpp:270-300 | records exactly the RSM pass log and keeps the states in step with it (also ModelViewer/Renderer.cpp:290-319) |
| FrameRecorder.Renderer.ShadowMapPass | ModelViewer/MyRenderer.cpp:302-324 | records exactly the shadow pass log (also ModelViewer/Renderer.cpp:321-342) |
| FrameRecorder.Renderer.VsglGenerationPass | ModelViewer/MyRenderer.cpp:390-445 | with the RSM buffers RSM_WIDTH square, records exactly the VSGL log (also ModelViewer/Renderer.cpp:406-461) |
| FrameRecorder.Renderer.DepthPass | ModelViewer/MyRenderer.cpp:326-346 | records exactly the depth pre-pass log (also ModelViewer/Renderer.cpp:344-363) |
| FrameRecorder.Renderer.LightingPass | ModelViewer/MyRenderer.cpp:348-387 | records exactly the lighting log, with the HSG pipelines when enabled (also ModelViewer/Renderer.cpp:365-403, MiniEngine/ModelViewer/Renderer/Renderer.cpp:355-395) |
| FrameRecorder.Renderer.InitializeTargets | ModelViewer/MyRenderer.cpp:247-261 | records the eight opening transitions and six clears |
| FrameRecorder.Renderer.Render | ModelViewer/MyRenderer.cpp:245-268 | records exactly the frame log, and the context's resource states end where replaying that log leads (also ModelViewer/Renderer.cpp:265-288, MiniEngine/ModelViewer/Renderer/Renderer.cpp:255-278) |
| FrameRenderer.InitTransitions | ModelViewer/MyRenderer.cpp:248-255 | the eight transitions that open a frame, in source order |
| FrameRenderer.InitClears | ModelViewer/MyRenderer.cpp:256-261 | the RSM depth, diffuse and specular clears, then the shadow map, scene depth and scene colour clears |
| FrameRenderer.RsmLog | ModelViewer/MyRenderer.cpp:270-300 | the RSM pass: its setup, the model draws with the RSM pipelines, then the split transitions that release the RSM buffers |
| FrameRenderer.ShadowLog | ModelViewer/MyRenderer.cpp:302-324 | the shadow pass: its setup, the depth-only draws with the shadow pipelines, then the release |
| FrameRenderer.VsglLog | ModelViewer/MyRenderer.cpp:390-445 | the VSGL pass: the transitions and bindings, then the diffuse and the specular settings each followed by its dispatch |
| FrameRenderer.DepthPassLog | ModelViewer/MyRenderer.cpp:326-346 | the depth pre-pass: its setup, then the depth-only draws |
| FrameRenderer.LightingLog | ModelViewer/MyRenderer.cpp:348-387 | the lighting pass: its transitions, its setup with the HSG choice, then the model draws with the lighting pipelines |
| FrameRenderer.FrameLog | ModelViewer/MyRenderer.cpp:245-268 | a frame: the opening transitions and clears, then the RSM, shadow, VSGL, depth and lighting passes in that order |

## Left out

- Direct3D 12 device work is not modelled. This covers command-list submission, root-signature and PSO compilation (Finalize and its hash maps), CreateCommittedResource and the device's execution of CopyDescriptors. Each becomes a log entry or a value passed in; the descriptor copies CopyAndBindStaleTables requests are recorded as `DynamicDescriptors.Copy` values.
- Shader behaviour is not modelled, including what the VSGL kernels write into the light buffer. Compiled GPU code is not visible.
- Viewports, scissors as floats, primitive topology and dynamic constant-buffer uploads carry no resource state, so the frame log leaves them out. So are MyRenderer's SetDescriptorHeap calls (ModelViewer/MyRenderer.cpp:282, 318, 342, 371) and the flush flag on the SceneColor transition (ModelViewer/Renderer.cpp:275, MiniEngine/ModelViewer/Renderer/Renderer.cpp:265): a transition is logged without it. The VSGL pass's planeWidth/photonPower computation (tan, floats) is also left out.
- CommandContext.cpp is not part of this model. Its transition semantics are modelled by `GpuContext` and `CommandReplay`: a transition sets the state, and a begun split transition is pending until completed.
- EnableHSGConvolution is a parameter of Render rather than a global tuning variable.
- FrameRecorder.Renderer.Clear: the MiniEngine ModelViewer renderer has no Clear, so the method requires another variant.
- FrameRecorder.Renderer.Draw: which model's index and vertex buffers are bound is named by a `kind` parameter (main or cutout model), not by buffer identity.
- FrameRenderer.BoundAtEachDraw: the draw loops start from UINT_MAX as "no material". The lemma requires that the first mesh's material is not that value, because a mesh with material UINT_MAX would draw with no material bound.
- The draw loops' asserts (whole triangles, 16-bit index offsets, whole vertices) are `requires` on the draw methods, not error paths.
- Fences and completed-fence values are parameters (oracles). Mutexes and threading in the allocators, the texture manager and the dynamic descriptor heap are ignored.
- TextureRefs.TextureManager.FindOrLoadTexture: WaitForLoad on a cached texture is a busy-wait on another thread and is not modelled. The file bytes are given as a size plus a "DDS loaded" flag, and a failed DDS load's fallback descriptor copy is not modelled. LoadDDSFromFile only forwards to it.
- TextureRefs.TextureRef.Release models the destructor. The handle object itself is not destroyed, so its `ref` field keeps its value.
- Animation: Lerp/Slerp of key frames and the ToFloat conversions are floats. A node update records the two key-frame offsets it reads and the weight between them. Blend-shape weights are excluded by a `requires`, as their ASSERT does.
- Animation.ModelInstance.UpdateAnimations: times are `real`, so float rounding and `fmodf` of negative times are not modelled. A looping animation must have a positive duration, because `fmodf` by 0 gives NaN, which the model leaves out. Stopped animations need nothing, as the loop skips them.
- MeshSorting.MeshSorter.AddMesh: the distance is given as the 32-bit pattern of a non-negative float, and the object count is below 65536 (the 16-bit object index), as a `requires`.
- MeshSorting.PsoLibrary.GetPSO: PSOs are compared by description, not by compiled object. The "at most 256 PSOs" ASSERT is a `requires`.
- MeshSorting.MeshSorter.RenderMeshes: the root signature, primitive topology, the two SetDescriptorHeap calls, the common SRV table and the global constants set at MiniEngine/Model/Renderer.cpp:548-563 are not in the render log. Neither are SetViewportAndScissor and FlushResourceBarriers (lines 647-648) or the flush flag of the shadow batch's depth transition (line 567). The per-object constant buffers, material tables, skinning SRV, PSO, vertex and index buffers and draws are logged.
- MeshSorting.ScissorWithinTarget: the shadow batch's inset scissor is only within the target when the target is at least 3x3. For a smaller target the uint32 difference becomes a negative LONG edge (ShadowScissorNegative). The lemma is stated for sides below 2^31; a larger uint32 size would also turn negative in a LONG edge.
- GraphRender.GraphVector: ManageMax and the graph drawing are float and GPU work and are not modelled. Colours are `real`.
- TuningVars: ExpVar (log2f/exp2f), CallbackTrigger and engine-variable action callbacks are floats or foreign calls and are not modelled. NumVar uses `real` without rounding.
- TuningVars.IntVar.Increment and TuningVars.IntVar.Decrement require that adding the step does not overflow int32.
- TuningVars.EnumVar.Decrement requires value + length - 1 to stay below 2^31, because the source computes it in int32_t before the modulo.
- TuningVars.DynamicEnumVar.Decrement requires the same of value + count - 1, and a non-empty label list, since the modulo by 0 is undefined.
- DynamicDescriptors.DescriptorHandleCache.StageDescriptorHandles requires offset + numHandles <= 32. The source only asserts that the range fits the table (up to 256 descriptors), but its uint32_t assigned map cannot hold bits from 32 up, and shifting 1 by 32 or more is undefined in C++. The model does not say what happens to such handles.
- TuningGraph: VariableGroup Display, SaveToFile and LoadSettingsFromFile are I/O and are not modelled. The "trash the tweak graph" ASSERT (a variable where a group is needed) is modelled as a failed add that leaves the tree unchanged.
- TuningGraph.TuningRegistry.RegisterVariable requires a path of at most 127 characters and fewer than 1024 queued registrations, the sizes of the fixed arrays it copies into.
- CommandLine: GetInteger and GetFloat parse with stoi and _wtof and are not modelled. Wide and narrow strings are both `seq<char>`.
- DynamicHeap: DynamicDescriptorHeap::DestroyAll (release of the device heaps) is not modelled.
- DynamicDescriptors.DescriptorHandleCache.CopyAndBindStaleTables: the source gathers runs of set bits into destination ranges and hands them to CopyDescriptors at most sixteen source descriptors at a time; the model records the resulting one-descriptor copies, in the order they are gathered, but not how they are split into CopyDescriptors calls.
- DynamicDescriptors.Cached: a slot past the end of the handle cache reads as 0. A laid-out cache keeps every table inside the cache, so no staged handle reaches that case.
- LinearAlloc: DestroyAll (release of the device pages) is not modelled.
- Descriptors.DescriptorHandle.Advanced: the in-place `+=` is modelled as a value function returning the advanced handle.
- PixelFormats.GetUAVFormat: its debug-build ASSERT on formats with no UAV form is a `requires`.
- PixelFormats: AssociateWithResource, CreateTextureResource and ExportToFile are device or file work and are not modelled.
- ColorBuffers.ColorBuffer.DescribeCreate requires a nonzero width or height when numMips is 0, because a bit scan of 0 is undefined.
- ColorBuffers: CreateArray, CreateFromSwapChain, GenerateMipMaps and the clear colour are device work or floats and are not modelled.
- PipelineState: the blend, rasterizer and depth-stencil setters copy opaque D3D12 structures. They and Finalize/DestroyAll are not modelled.

## Findings

| source | as written | input that shows it | evidently intended | confidence | as-written member | corrected member |
|---|---|---|---|---|---|---|
| MiniEngine/Core/DescriptorHeap.cpp:48-64 | a request of more than 256 descriptors takes a fresh 256-descriptor heap, and `m_RemainingFreeHandles -= Count` wraps to nearly 2^32 | Allocate(300) on a fresh allocator, then Allocate(1): the second handle lies 300 descriptors past a 256-descriptor heap | Count is at most the descriptors per heap, so every range lies inside one heap | not executed | Descriptors.OversizedAllocationOverruns | Descriptors.AllocateStaysInHeap |
| MiniEngine/Core/LinearAllocator.cpp:158-171 | the power-of-two ASSERT `(Alignment - 1) & Alignment == 0` accepts Alignment 0, and AlignUp with mask ~0 returns 0 | Allocate(size, 0) with the current offset past 0: the offset is rewound to 0 and the new block overlaps earlier ones | the alignment is a nonzero power of two, so blocks on a page are disjoint | not executed | LinearAlloc.ZeroAlignmentRewinds | LinearAlloc.PlaceSmallDisjoint |
| MiniEngine/Model/Renderer.cpp:604-607 | the default scissor's bottom is set from the depth target's width | a 1920x1080 default batch gets a scissor bottom of 1920 | bottom = height, so the scissor is the whole target | not executed | MeshSorting.ScissorPastTarget | MeshSorting.ScissorWithinTarget |
| MiniEngine/Model/Animation.cpp:168-181 | ResetAnimation and StopAnimation act only when `animIdx >= m_AnimState.size()` | index 0 of a one-animation instance is never rewound or stopped, while index 1 is written out of bounds | act when `animIdx < size`, like Play and Pause | not executed | Animation.ResetStopAsWrittenInverted | Animation.ModelInstance.StopAnimation |
| MiniEngine/Model/Animation.cpp:123-129 | progress is clamped to numSegments, so at the end segment = numSegments and key2 is key frame numSegments+1 | any time at or after a curve's end | the last segment numSegments-1 with weight 1, which reads only the curve's numSegments+1 key frames | not executed | Animation.SampleAsWrittenPastEnd | Animation.SampleInRange |

// The tweak menu's variable tree (Core/EngineTuning.cpp): groups created
// from '/'-separated paths, the registration queue that holds variables
// constructed before the engine starts, and menu navigation.
//
// The tree is a value: a group owns its children, which std::map keeps
// sorted by name, and a variable is represented by an identifier.  A
// position in the tree (an EngineVar pointer) is a cursor: the child
// indices that lead to it from the root group.
module TuningGraph {
  import opened Wrappers

  datatype Tweak = Group(children: seq<Child>, expanded: bool) | Var(id: nat)
  datatype Child = Child(name: string, node: Tweak)

  // ---------------------------------------------------------------------
  // Child maps: std::map<string, EngineVar*> as a name-sorted sequence.
  // ---------------------------------------------------------------------

  /** std::string's operator<: lexicographic on characters, a proper prefix first. */
  predicate Before(a: string, b: string)
  {
    if |a| == 0 then |b| > 0
    else |b| > 0 && (a[0] < b[0] || (a[0] == b[0] && Before(a[1..], b[1..])))
  }

  lemma {:induction false} BeforeIrreflexive(a: string)
    ensures !Before(a, a)
  {
    if |a| > 0 {
      BeforeIrreflexive(a[1..]);
    }
  }

  lemma {:induction false} BeforeTransitive(a: string, b: string, c: string)
    requires Before(a, b) && Before(b, c)
    ensures Before(a, c)
  {
    if |a| > 0 && a[0] == b[0] && b[0] == c[0] {
      BeforeTransitive(a[1..], b[1..], c[1..]);
    }
  }

  lemma {:induction false} BeforeTotal(a: string, b: string)
    ensures a == b || Before(a, b) || Before(b, a)
  {
    if |a| > 0 && |b| > 0 && a[0] == b[0] {
      BeforeTotal(a[1..], b[1..]);
      if a[1..] == b[1..] {
        assert a == [a[0]] + a[1..] && b == [b[0]] + b[1..];
      }
    }
  }

  predicate Sorted(cs: seq<Child>)
  {
    forall i, j :: 0 <= i < j < |cs| ==> Before(cs[i].name, cs[j].name)
  }

  /** FindChild: the node registered under name, if any. */
  function Get(cs: seq<Child>, name: string): (r: Option<Tweak>)
    ensures r.Some? <==> exists i :: 0 <= i < |cs| && cs[i].name == name
    ensures r.Some? ==> Child(name, r.value) in cs
  {
    if |cs| == 0 then None
    else if cs[0].name == name then Some(cs[0].node)
    else
      var r := Get(cs[1..], name);
      assert forall i :: 1 <= i < |cs| ==> cs[i] == cs[1..][i - 1];
      r
  }

  /**
   * AddChild (m_Children[name] = &child): the name now maps to node,
   * replacing what it mapped to before; every other name is untouched and
   * the children stay sorted.
   */
  function SetChild(cs: seq<Child>, name: string, node: Tweak): (r: seq<Child>)
    requires Sorted(cs)
    ensures Sorted(r)
    ensures Get(r, name) == Some(node)
    ensures forall n :: n != name ==> Get(r, n) == Get(cs, n)
    ensures forall c :: c in r ==> c in cs || c == Child(name, node)
  {
    if |cs| == 0 then [Child(name, node)]
    else if cs[0].name == name then
      var r := [Child(name, node)] + cs[1..];
      assert forall n :: n != name ==> Get(r, n) == Get(cs[1..], n) == Get(cs, n);
      assert forall i :: 1 <= i < |r| ==> r[i] == cs[i];
      r
    else if Before(name, cs[0].name) then
      var r := [Child(name, node)] + cs;
      assert r[1..] == cs;
      SortedCons(cs, name, node);
      r
    else
      var rest := SetChild(cs[1..], name, node);
      var r := [cs[0]] + rest;
      assert r[1..] == rest;
      BeforeTotal(name, cs[0].name);
      SortedAfterHead(cs, rest, Child(name, node));
      r
  }

  lemma SortedCons(cs: seq<Child>, name: string, node: Tweak)
    requires Sorted(cs) && |cs| > 0 && Before(name, cs[0].name)
    ensures Sorted([Child(name, node)] + cs)
  {
    var r := [Child(name, node)] + cs;
    forall i, j | 0 <= i < j < |r| ensures Before(r[i].name, r[j].name) {
      if i == 0 && j > 1 {
        BeforeTransitive(name, cs[0].name, cs[j - 1].name);
      }
    }
  }

  lemma SortedAfterHead(cs: seq<Child>, rest: seq<Child>, extra: Child)
    requires Sorted(cs) && |cs| > 0 && Sorted(rest) && Before(cs[0].name, extra.name)
    requires forall c :: c in rest ==> c in cs[1..] || c == extra
    ensures Sorted([cs[0]] + rest)
  {
    var r := [cs[0]] + rest;
    forall i, j | 0 <= i < j < |r| ensures Before(r[i].name, r[j].name) {
      if i == 0 {
        var c := rest[j - 1];
        assert c in rest;
        if c != extra {
          assert c in cs[1..];
          var k :| 0 <= k < |cs| - 1 && cs[1..][k] == c;
          assert cs[k + 1] == c;
        }
      } else {
        assert r[i] == rest[i - 1] && r[j] == rest[j - 1];
      }
    }
  }

  // ---------------------------------------------------------------------
  // Paths.
  // ---------------------------------------------------------------------

  /** Rebuilds a path from its group names and its leaf name. */
  function JoinPath(groups: seq<string>, leaf: string): string
  {
    if groups == [] then leaf else groups[0] + "/" + JoinPath(groups[1..], leaf)
  }

  lemma {:induction false} JoinPathSnoc(groups: seq<string>, a: string, b: string)
    ensures JoinPath(groups + [a], b) == JoinPath(groups, a + "/" + b)
  {
    if groups != [] {
      assert (groups + [a])[1..] == groups[1..] + [a];
      JoinPathSnoc(groups[1..], a, b);
    }
  }

  /** std::string::find(c, start): the first c at or after start. */
  function FindFrom(s: string, c: char, start: nat): (r: Option<nat>)
    requires start <= |s|
    ensures r.Some? ==> start <= r.value < |s| && s[r.value] == c && c !in s[start..r.value]
    ensures r.None? ==> c !in s[start..]
    decreases |s| - start
  {
    if start == |s| then None
    else if s[start] == c then Some(start)
    else
      var r := FindFrom(s, c, start + 1);
      assert s[start..] == [s[start]] + s[start + 1..];
      assert r.Some? ==> s[start..r.value] == [s[start]] + s[start + 1..r.value];
      r
  }

  /**
   * The loop at the head of AddToVariableGraph: the path is cut at every
   * '/'; the pieces before the last '/' name groups and the rest names the
   * variable.  Splitting and joining are inverse.
   */
  method SplitPath(path: string) returns (groups: seq<string>, leaf: string)
    ensures JoinPath(groups, leaf) == path
    ensures '/' !in leaf
    ensures forall g :: g in groups ==> '/' !in g
    ensures (groups, leaf) == Split(path)
  {
    groups := [];
    var start := 0;
    while true
      invariant start <= |path|
      invariant JoinPath(groups, path[start..]) == path
      invariant forall g :: g in groups ==> '/' !in g
      decreases |path| - start
    {
      match FindFrom(path, '/', start)
      case None =>
        leaf := path[start..];
        SplitJoin(path);
        JoinUnique(groups, leaf, Split(path).0, Split(path).1);
        return;
      case Some(end) =>
        var piece := path[start..end];
        assert path[start..] == piece + "/" + path[end + 1..];
        JoinPathSnoc(groups, piece, path[end + 1..]);
        groups := groups + [piece];
        start := end + 1;
    }
  }

  /** The split of a path into group names and a leaf name, cutting at every '/'. */
  function Split(path: string): (seq<string>, string)
    decreases |path|
  {
    match FindFrom(path, '/', 0)
    case None => ([], path)
    case Some(e) =>
      var (groups, leaf) := Split(path[e + 1..]);
      ([path[..e]] + groups, leaf)
  }

  /** Split inverts JoinPath and leaves no '/' in any piece. */
  lemma {:induction false} SplitJoin(path: string)
    ensures JoinPath(Split(path).0, Split(path).1) == path
    ensures '/' !in Split(path).1
    ensures forall g :: g in Split(path).0 ==> '/' !in g
    decreases |path|
  {
    match FindFrom(path, '/', 0)
    case None =>
    case Some(e) =>
      SplitJoin(path[e + 1..]);
      var (groups, leaf) := Split(path[e + 1..]);
      assert ([path[..e]] + groups)[1..] == groups;
      assert path == path[..e] + "/" + path[e + 1..] by {
        assert path == path[..e] + path[e..];
        assert path[e..] == [path[e]] + path[e + 1..];
      }
      assert path[0..e] == path[..e];
  }

  /** Slash-free pieces are determined by their join: the split of a path is unique. */
  lemma {:induction false} JoinUnique(g1: seq<string>, l1: string, g2: seq<string>, l2: string)
    requires JoinPath(g1, l1) == JoinPath(g2, l2)
    requires '/' !in l1 && '/' !in l2
    requires forall g :: g in g1 ==> '/' !in g
    requires forall g :: g in g2 ==> '/' !in g
    ensures g1 == g2 && l1 == l2
    decreases |g1| + |g2|
  {
    var s := JoinPath(g1, l1);
    if g1 != [] && g2 != [] {
      assert g1[0] in g1 && g2[0] in g2;
      FirstSlash(g1[0], JoinPath(g1[1..], l1));
      FirstSlash(g2[0], JoinPath(g2[1..], l2));
      assert |g1[0]| == |g2[0]|;
      assert g1[0] == s[..|g1[0]|] == g2[0];
      assert JoinPath(g1[1..], l1) == s[|g1[0]| + 1..] == JoinPath(g2[1..], l2);
      JoinUnique(g1[1..], l1, g2[1..], l2);
      assert g1 == [g1[0]] + g1[1..] && g2 == [g2[0]] + g2[1..];
    }
  }

  lemma FirstSlash(a: string, b: string)
    requires '/' !in a
    ensures FindFrom(a + "/" + b, '/', 0) == Some(|a|)
  {
    var s := a + "/" + b;
    var r := FindFrom(s, '/', 0);
    assert s[|a|] == '/';
  }

  // ---------------------------------------------------------------------
  // Building the tree.
  // ---------------------------------------------------------------------

  /** Every group in the tree keeps its children sorted by name. */
  predicate WellFormed(t: Tweak)
  {
    match t
    case Var(_) => true
    case Group(cs, _) => Sorted(cs) && forall i :: 0 <= i < |cs| ==> WellFormed(cs[i].node)
  }

  /** The node a name path leads to from t (FindChild applied name by name). */
  function Resolve(t: Tweak, p: seq<string>): Option<Tweak>
    decreases p
  {
    if p == [] then Some(t)
    else match t
      case Var(_) => None
      case Group(cs, _) =>
        match Get(cs, p[0])
        case None => None
        case Some(c) => Resolve(c, p[1..])
  }

  /**
   * AddToVariableGraph below group t: descend through the named groups,
   * creating a collapsed group for each missing name, and attach the
   * variable under leaf.  A variable met where a group is needed is the
   * "Attempted to trash the tweak graph" assertion: the result is None.
   */
  function AddPath(t: Tweak, groups: seq<string>, leaf: string, v: nat): (r: Option<Tweak>)
    requires t.Group? && WellFormed(t)
    ensures r.Some? ==> r.value.Group? && WellFormed(r.value) && r.value.expanded == t.expanded
    decreases groups
  {
    if groups == [] then
      SetChildWellFormed(t.children, leaf, Var(v));
      Some(Group(SetChild(t.children, leaf, Var(v)), t.expanded))
    else
      var existing := Get(t.children, groups[0]);
      if existing.Some? && existing.value.Var? then None
      else
        var below := if existing.Some? then existing.value else Group([], false);
        assert WellFormed(below) by {
          if existing.Some? { GetWellFormed(t.children, groups[0]); }
        }
        match AddPath(below, groups[1..], leaf, v)
        case None => None
        case Some(g') =>
          SetChildWellFormed(t.children, groups[0], g');
          Some(Group(SetChild(t.children, groups[0], g'), t.expanded))
  }

  lemma GetWellFormed(cs: seq<Child>, name: string)
    requires forall i :: 0 <= i < |cs| ==> WellFormed(cs[i].node)
    requires Get(cs, name).Some?
    ensures WellFormed(Get(cs, name).value)
  {
  }

  lemma SetChildWellFormed(cs: seq<Child>, name: string, node: Tweak)
    requires Sorted(cs) && WellFormed(node)
    requires forall i :: 0 <= i < |cs| ==> WellFormed(cs[i].node)
    ensures WellFormed(Group(SetChild(cs, name, node), false))
    ensures WellFormed(Group(SetChild(cs, name, node), true))
  {
    var r := SetChild(cs, name, node);
    forall i | 0 <= i < |r| ensures WellFormed(r[i].node) {
      assert r[i] in r;
    }
  }

  /** After a successful AddToVariableGraph the full path leads to the variable. */
  lemma {:induction false} AddPathResolves(t: Tweak, groups: seq<string>, leaf: string, v: nat)
    requires t.Group? && WellFormed(t) && AddPath(t, groups, leaf, v).Some?
    ensures Resolve(AddPath(t, groups, leaf, v).value, groups + [leaf]) == Some(Var(v))
    decreases groups
  {
    var t' := AddPath(t, groups, leaf, v).value;
    if groups != [] {
      assert (groups + [leaf])[1..] == groups[1..] + [leaf];
      match Get(t.children, groups[0])
      case None =>
        AddPathResolves(Group([], false), groups[1..], leaf, v);
      case Some(g) =>
        GetWellFormed(t.children, groups[0]);
        AddPathResolves(g, groups[1..], leaf, v);
    }
  }

  /** Adding from an empty group never meets a variable, so it cannot fail. */
  lemma {:induction false} AddPathFreshSucceeds(groups: seq<string>, leaf: string, v: nat)
    ensures AddPath(Group([], false), groups, leaf, v).Some?
    decreases groups
  {
    if groups != [] {
      AddPathFreshSucceeds(groups[1..], leaf, v);
    }
  }

  /** The name path p leads from t to a variable. */
  predicate LeadsToVar(t: Tweak, p: seq<string>)
  {
    Resolve(t, p).Some? && Resolve(t, p).value.Var?
  }

  /**
   * AddToVariableGraph fails exactly when some non-empty prefix of the group
   * path already leads to a variable.
   */
  lemma {:induction false} AddPathFailsIff(t: Tweak, groups: seq<string>, leaf: string, v: nat)
    requires t.Group? && WellFormed(t)
    ensures AddPath(t, groups, leaf, v).None? <==>
      exists n :: 0 < n <= |groups| && LeadsToVar(t, groups[..n])
    decreases groups
  {
    if groups != [] {
      var g0 := Get(t.children, groups[0]);
      forall n | 0 < n <= |groups|
        ensures Resolve(t, groups[..n]) == if g0.None? then None else Resolve(g0.value, groups[1..][..n - 1])
      {
        assert groups[..n][0] == groups[0];
        assert groups[..n][1..] == groups[1..][..n - 1];
      }
      if g0.None? {
        AddPathFreshSucceeds(groups[1..], leaf, v);
      } else if g0.value.Var? {
        assert LeadsToVar(t, groups[..1]);
      } else {
        var g := g0.value;
        GetWellFormed(t.children, groups[0]);
        AddPathFailsIff(g, groups[1..], leaf, v);
        if exists n :: 0 < n <= |groups[1..]| && LeadsToVar(g, groups[1..][..n]) {
          var n :| 0 < n <= |groups[1..]| && LeadsToVar(g, groups[1..][..n]);
          assert LeadsToVar(t, groups[..n + 1]);
        }
        if exists n :: 0 < n <= |groups| && LeadsToVar(t, groups[..n]) {
          var n :| 0 < n <= |groups| && LeadsToVar(t, groups[..n]);
          assert n > 1;
          assert LeadsToVar(g, groups[1..][..n - 1]);
        }
      }
    }
  }

  /**
   * AddToVariableGraph touches nothing but its own path: a name path that
   * neither is a prefix of the group path nor runs through the new leaf
   * leads where it led before.
   */
  lemma {:induction false} AddPathFrame(t: Tweak, groups: seq<string>, leaf: string, v: nat, p: seq<string>)
    requires t.Group? && WellFormed(t) && AddPath(t, groups, leaf, v).Some?
    requires !(p <= groups) && !(groups + [leaf] <= p)
    ensures Resolve(AddPath(t, groups, leaf, v).value, p) == Resolve(t, p)
    decreases groups
  {
    assert p != [];
    if groups != [] && p[0] == groups[0] {
      var q := p[1..];
      match Get(t.children, groups[0])
      case None =>
        AddPathFrame(Group([], false), groups[1..], leaf, v, q);
      case Some(g) =>
        GetWellFormed(t.children, groups[0]);
        AddPathFrame(g, groups[1..], leaf, v, q);
    }
  }

  /**
   * Groups are created on demand and reused by name: every prefix of the
   * group path leads to a group afterwards, one that existed keeping its
   * expanded flag and a new one starting collapsed.
   */
  lemma {:induction false} AddPathGroups(t: Tweak, groups: seq<string>, leaf: string, v: nat, n: nat)
    requires t.Group? && WellFormed(t) && AddPath(t, groups, leaf, v).Some? && n <= |groups|
    ensures var after := Resolve(AddPath(t, groups, leaf, v).value, groups[..n]);
      after.Some? && after.value.Group? &&
      after.value.expanded == (match Resolve(t, groups[..n]) case Some(Group(_, e)) => e case _ => false)
    decreases groups
  {
    if n > 0 {
      assert groups[..n][0] == groups[0];
      assert groups[..n][1..] == groups[1..][..n - 1];
      match Get(t.children, groups[0])
      case None =>
        AddPathGroups(Group([], false), groups[1..], leaf, v, n - 1);
        if n > 1 {
          assert Resolve(Group([], false), groups[1..][..n - 1]) == None;
        }
      case Some(g) =>
        GetWellFormed(t.children, groups[0]);
        AddPathGroups(g, groups[1..], leaf, v, n - 1);
    }
  }

  // ---------------------------------------------------------------------
  // Registration.
  // ---------------------------------------------------------------------

  /** kMaxUnregisteredTweaks: the capacity of the registration queue. */
  const MAX_UNREGISTERED: nat := 1024

  /** The longest path the queue's 128-character buffers hold, the terminator excluded. */
  const MAX_PATH_CHARS: nat := 127

  /** One AddToVariableGraph call on a whole path; a failed one leaves the tree as it was. */
  function AddVariable(t: Tweak, path: string, v: nat): (r: Tweak)
    requires t.Group? && WellFormed(t)
    ensures r.Group? && WellFormed(r) && r.expanded == t.expanded
  {
    match AddPath(t, Split(path).0, Split(path).1, v)
    case Some(t') => t'
    case None => t
  }

  /** The queued variables added in queue order. */
  function AddAll(t: Tweak, paths: seq<string>, vars: seq<nat>): (r: Tweak)
    requires t.Group? && WellFormed(t) && |paths| == |vars|
    ensures r.Group? && WellFormed(r)
  {
    if paths == [] then t
    else
      var n := |paths| - 1;
      AddVariable(AddAll(t, paths[..n], vars[..n]), paths[n], vars[n])
  }

  /**
   * The last queued registration is found at its path once Initialize has
   * run, provided its group path meets no variable: a later registration of
   * a path replaces an earlier one.
   */
  lemma AddAllLastWins(t: Tweak, paths: seq<string>, vars: seq<nat>, before: Tweak, groups: seq<string>, leaf: string)
    requires t.Group? && WellFormed(t) && |paths| == |vars| && |paths| > 0
    requires before == AddAll(t, paths[..|paths| - 1], vars[..|vars| - 1])
    requires (groups, leaf) == Split(paths[|paths| - 1])
    requires AddPath(before, groups, leaf, vars[|vars| - 1]).Some?
    ensures Resolve(AddAll(t, paths, vars), groups + [leaf]) == Some(Var(vars[|vars| - 1]))
  {
    AddPathResolves(before, groups, leaf, vars[|vars| - 1]);
  }

  // ---------------------------------------------------------------------
  // Navigation.  A cursor is the list of child indices from the root.
  // ---------------------------------------------------------------------

  /** The node a cursor designates, if the cursor is valid. */
  function NodeAt(t: Tweak, c: seq<nat>): Option<Tweak>
    decreases c
  {
    if c == [] then Some(t)
    else match t
      case Var(_) => None
      case Group(cs, _) => if c[0] < |cs| then NodeAt(cs[c[0]].node, c[1..]) else None
  }

  lemma {:induction false} NodeAtAppend(t: Tweak, a: seq<nat>, b: seq<nat>)
    requires NodeAt(t, a).Some?
    ensures NodeAt(t, a + b) == NodeAt(NodeAt(t, a).value, b)
    decreases a
  {
    if a != [] {
      var child := t.children[a[0]].node;
      assert NodeAt(t, a) == NodeAt(child, a[1..]);
      assert (a + b)[0] == a[0];
      assert (a + b)[1..] == a[1..] + b;
      assert NodeAt(t, a + b) == NodeAt(child, a[1..] + b);
      NodeAtAppend(child, a[1..], b);
    } else {
      assert a + b == b;
    }
  }

  /** The cursor c names a group with a child at index i. */
  predicate IsChildOf(t: Tweak, g: seq<nat>, i: nat)
  {
    NodeAt(t, g).Some? && NodeAt(t, g).value.Group? && i < |NodeAt(t, g).value.children|
  }

  lemma ChildExists(t: Tweak, g: seq<nat>, i: nat)
    requires IsChildOf(t, g, i)
    ensures NodeAt(t, g + [i]) == Some(NodeAt(t, g).value.children[i].node)
  {
    NodeAtAppend(t, g, [i]);
  }

  /** A valid non-root cursor's parent is a group that has it as a child. */
  lemma {:induction false} ParentOf(t: Tweak, c: seq<nat>)
    requires c != [] && NodeAt(t, c).Some?
    ensures IsChildOf(t, c[..|c| - 1], c[|c| - 1])
    decreases c
  {
    if |c| > 1 {
      ParentOf(t.children[c[0]].node, c[1..]);
      assert c[1..][..|c| - 2] == c[..|c| - 1][1..];
    }
  }

  predicate IsExpandedGroup(t: Tweak)
  {
    t.Group? && t.expanded
  }

  /** FirstVariable: the first child of a group, none for an empty group. */
  function FirstVariable(t: Tweak, g: seq<nat>): (r: Option<seq<nat>>)
    requires NodeAt(t, g).Some? && NodeAt(t, g).value.Group?
    ensures r.None? <==> |NodeAt(t, g).value.children| == 0
    ensures r.Some? ==> r.value == g + [0] && NodeAt(t, r.value).Some?
  {
    if |NodeAt(t, g).value.children| == 0 then None
    else
      ChildExists(t, g, 0);
      Some(g + [0])
  }

  /** Every group the cursor passes through below n (not n itself, not the end) is expanded. */
  predicate ExpandedAlong(n: Tweak, r: seq<nat>)
  {
    forall k :: 0 < k < |r| ==> NodeAt(n, r[..k]).Some? && IsExpandedGroup(NodeAt(n, r[..k]).value)
  }

  /** A cursor that ends on an expanded group with children does not end on a visible last entry. */
  predicate OpenGroup(n: Tweak)
  {
    IsExpandedGroup(n) && |n.children| > 0
  }

  /**
   * LastVariable relative to a group: the group itself when it is empty,
   * otherwise its last child, descending while that child is an expanded
   * group with children.  The cursor takes the last child at every step,
   * passes only through expanded groups, and ends on a node that is not an
   * expanded group with children: the last entry the menu shows.
   */
  function LastIn(n: Tweak): (r: seq<nat>)
    requires n.Group?
    ensures NodeAt(n, r).Some?
    ensures r == [] <==> |n.children| == 0
    ensures LastFrom(n, r, 0)
    ensures ExpandedAlong(n, r)
    ensures r != [] ==> !OpenGroup(NodeAt(n, r).value)
    decreases n
  {
    var cs := n.children;
    if |cs| == 0 then []
    else
      var k := |cs| - 1;
      if OpenGroup(cs[k].node) then
        var rest := LastIn(cs[k].node);
        LastDescentCons(n, k, rest);
        [k] + rest
      else
        assert [k][..0] == [];
        [k]
  }

  /** Following child k of a group and then x is following x from that child. */
  lemma NodeAtCons(n: Tweak, k: nat, x: seq<nat>)
    requires n.Group? && k < |n.children|
    ensures NodeAt(n, [k] + x) == NodeAt(n.children[k].node, x)
  {
    assert ([k] + x)[0] == k && ([k] + x)[1..] == x;
  }

  /** A last-child descent from the last child of n, itself an expanded group, is one from n. */
  lemma LastDescentCons(n: Tweak, k: nat, rest: seq<nat>)
    requires n.Group? && k + 1 == |n.children| && IsExpandedGroup(n.children[k].node)
    requires NodeAt(n.children[k].node, rest).Some?
    requires LastFrom(n.children[k].node, rest, 0) && ExpandedAlong(n.children[k].node, rest)
    ensures NodeAt(n, [k] + rest) == NodeAt(n.children[k].node, rest)
    ensures LastFrom(n, [k] + rest, 0) && ExpandedAlong(n, [k] + rest)
  {
    var child := n.children[k].node;
    var r := [k] + rest;
    NodeAtCons(n, k, rest);
    forall j | 0 <= j < |r| ensures LastChildAt(n, r, j) {
      if j == 0 {
        assert r[..0] == [];
      } else {
        assert r[..j] == [k] + rest[..j - 1] && r[j] == rest[j - 1];
        NodeAtCons(n, k, rest[..j - 1]);
        assert LastChildAt(child, rest, j - 1);
      }
    }
    forall j | 0 < j < |r| ensures NodeAt(n, r[..j]).Some? && IsExpandedGroup(NodeAt(n, r[..j]).value) {
      assert r[..j] == [k] + rest[..j - 1];
      NodeAtCons(n, k, rest[..j - 1]);
      if j == 1 {
        assert rest[..0] == [];
      }
    }
  }

  /** LastIn is the only cursor with its properties: the menu's last entry is well defined. */
  lemma {:induction false} LastInUnique(n: Tweak, r: seq<nat>)
    requires n.Group? && NodeAt(n, r).Some?
    requires r == [] <==> |n.children| == 0
    requires LastFrom(n, r, 0) && ExpandedAlong(n, r)
    requires r != [] ==> !OpenGroup(NodeAt(n, r).value)
    ensures r == LastIn(n)
    decreases r
  {
    if r != [] {
      assert r[..0] == [];
      assert LastChildAt(n, r, 0);
      var k := r[0];
      var child := n.children[k].node;
      var rest := r[1..];
      assert r == [k] + rest;
      NodeAtCons(n, k, rest);
      if OpenGroup(child) {
        if rest == [] {
          assert false;
        }
        forall j | 0 <= j < |rest| ensures LastChildAt(child, rest, j) {
          assert LastChildAt(n, r, j + 1);
          assert r[..j + 1] == [k] + rest[..j] && r[j + 1] == rest[j];
          NodeAtCons(n, k, rest[..j]);
        }
        forall j | 0 < j < |rest| ensures NodeAt(child, rest[..j]).Some? && IsExpandedGroup(NodeAt(child, rest[..j]).value) {
          assert r[..j + 1] == [k] + rest[..j];
          NodeAtCons(n, k, rest[..j]);
        }
        LastInUnique(child, rest);
      } else if rest != [] {
        assert r[..1] == [k] == [k] + [];
        NodeAtCons(n, k, []);
        assert false;
      }
    }
  }

  /**
   * VariableGroup::LastVariable: the group g itself when it is empty, else
   * the last entry shown below it, reached by last children through
   * expanded groups.
   */
  function LastVariable(t: Tweak, g: seq<nat>): (r: seq<nat>)
    requires NodeAt(t, g).Some? && NodeAt(t, g).value.Group?
    ensures NodeAt(t, r).Some? && g <= r
    ensures r == g <==> |NodeAt(t, g).value.children| == 0
    ensures LastFrom(t, r, |g|)
    ensures forall k :: |g| < k < |r| ==> NodeAt(t, r[..k]).Some? && IsExpandedGroup(NodeAt(t, r[..k]).value)
    ensures r != g ==> !OpenGroup(NodeAt(t, r).value)
  {
    var n := NodeAt(t, g).value;
    var rel := LastIn(n);
    var r := g + rel;
    NodeAtAppend(t, g, rel);
    forall k | |g| <= k < |r| ensures LastChildAt(t, r, k) {
      assert r[..k] == g + rel[..k - |g|] && r[k] == rel[k - |g|];
      NodeAtAppend(t, g, rel[..k - |g|]);
      assert LastChildAt(n, rel, k - |g|);
    }
    forall k | |g| < k < |r| ensures NodeAt(t, r[..k]).Some? && IsExpandedGroup(NodeAt(t, r[..k]).value) {
      assert r[..k] == g + rel[..k - |g|];
      NodeAtAppend(t, g, rel[..k - |g|]);
    }
    r
  }

  /** The entry of cursor c at depth k is the last child of its parent. */
  predicate LastChildAt(t: Tweak, c: seq<nat>, k: nat)
    requires k < |c|
  {
    IsChildOf(t, c[..k], c[k]) && c[k] + 1 == |NodeAt(t, c[..k]).value.children|
  }

  /** Every entry of the cursor from depth d on is the last child of its parent. */
  predicate LastFrom(t: Tweak, c: seq<nat>, d: nat)
    requires d <= |c|
  {
    forall k :: d <= k < |c| ==> LastChildAt(t, c, k)
  }

  /**
   * NextVariable of the child i of group g: the next sibling, or else the
   * parent's NextVariable of g, and none at the root.  A result moves to the
   * next sibling at the deepest level n whose entry has one: every entry
   * below n is a last child.  The result is none exactly when the child and
   * every group above it are last children.
   */
  function NextVariable(t: Tweak, g: seq<nat>, i: nat): (r: Option<seq<nat>>)
    requires IsChildOf(t, g, i)
    ensures r.Some? ==> NodeAt(t, r.value).Some? && 0 < |r.value| <= |g| + 1
    ensures r.Some? ==> var n := |r.value| - 1;
      r.value[..n] == (g + [i])[..n] && r.value[n] == (g + [i])[n] + 1
    ensures r.Some? ==> LastFrom(t, g + [i], |r.value|)
    ensures r.None? <==> LastFrom(t, g + [i], 0)
    decreases |g|
  {
    var cs := NodeAt(t, g).value.children;
    if i + 1 < |cs| then
      ChildExists(t, g, i + 1);
      assert !LastChildAt(t, g + [i], |g|) by {
        assert (g + [i])[..|g|] == g && (g + [i])[|g|] == i;
      }
      Some(g + [i + 1])
    else if g == [] then
      assert LastFrom(t, [i], 0) by {
        assert [i][..0] == [];
      }
      None
    else
      var p := g[..|g| - 1];
      ParentOf(t, g);
      var r := NextVariable(t, p, g[|g| - 1]);
      assert p + [g[|g| - 1]] == g;
      LastFromStep(t, g, i, 0);
      if r.Some? then
        LastFromStep(t, g, i, |r.value|);
        r
      else r
  }

  /** Below a last child i of group g, the last-child entries of g + [i] from depth d are those of g. */
  lemma LastFromStep(t: Tweak, g: seq<nat>, i: nat, d: nat)
    requires IsChildOf(t, g, i) && i + 1 == |NodeAt(t, g).value.children| && d <= |g|
    ensures LastFrom(t, g + [i], d) <==> LastFrom(t, g, d)
  {
    var c := g + [i];
    assert c[..|g|] == g && c[|g|] == i;
    assert LastChildAt(t, c, |g|);
    forall k | d <= k < |g| ensures LastChildAt(t, c, k) == LastChildAt(t, g, k) {
      assert c[..k] == g[..k] && c[k] == g[k];
    }
  }

  /**
   * PrevVariable of the child i of group g: the group itself for the first
   * child, otherwise the previous sibling, or that sibling's LastVariable
   * when it is an expanded group.
   */
  function PrevVariable(t: Tweak, g: seq<nat>, i: nat): (r: seq<nat>)
    requires IsChildOf(t, g, i)
    ensures NodeAt(t, r).Some?
    ensures i == 0 ==> r == g
    ensures i > 0 ==> NodeAt(t, g + [i - 1]).Some? && g + [i - 1] <= r
    ensures i > 0 && !IsExpandedGroup(NodeAt(t, g + [i - 1]).value) ==> r == g + [i - 1]
    ensures i > 0 && IsExpandedGroup(NodeAt(t, g + [i - 1]).value) ==> r == LastVariable(t, g + [i - 1])
  {
    if i == 0 then g
    else
      var p := g + [i - 1];
      ChildExists(t, g, i - 1);
      if IsExpandedGroup(NodeAt(t, p).value) then LastVariable(t, p) else p
  }

  /**
   * EngineVar::NextVar: into an expanded group's first child, else on to
   * the parent's NextVariable: the next sibling at the deepest level that
   * has one.  At the end of the menu, where every entry of the cursor is a
   * last child, the selection stays.
   */
  function NextVar(t: Tweak, x: seq<nat>): (r: seq<nat>)
    requires x != [] && NodeAt(t, x).Some?
    ensures NodeAt(t, r).Some?
    ensures OpenGroup(NodeAt(t, x).value) ==> r == x + [0]
    ensures !OpenGroup(NodeAt(t, x).value) && LastFrom(t, x, 0) ==> r == x
    ensures !OpenGroup(NodeAt(t, x).value) && !LastFrom(t, x, 0) ==>
      && 0 < |r| <= |x|
      && r[..|r| - 1] == x[..|r| - 1] && r[|r| - 1] == x[|r| - 1] + 1
      && LastFrom(t, x, |r|)
  {
    var first := if IsExpandedGroup(NodeAt(t, x).value) then FirstVariable(t, x) else None;
    if first.Some? then first.value
    else
      ParentOf(t, x);
      assert x[..|x| - 1] + [x[|x| - 1]] == x;
      match NextVariable(t, x[..|x| - 1], x[|x| - 1])
      case Some(n) => n
      case None => x
  }

  /**
   * EngineVar::PrevVar: the parent's PrevVariable, descending to the
   * LastVariable when that is an expanded group other than the parent.
   * The first child of a group moves to the group; any other entry moves to
   * its previous sibling, or to the last entry shown below that sibling
   * when it is an expanded group.
   */
  function PrevVar(t: Tweak, x: seq<nat>): (r: seq<nat>)
    requires x != [] && NodeAt(t, x).Some?
    ensures NodeAt(t, r).Some?
    ensures x[|x| - 1] == 0 ==> r == x[..|x| - 1]
    ensures x[|x| - 1] > 0 ==> var s := x[..|x| - 1] + [x[|x| - 1] - 1];
      && NodeAt(t, s).Some?
      && (!IsExpandedGroup(NodeAt(t, s).value) ==> r == s)
      && (IsExpandedGroup(NodeAt(t, s).value) ==> r == LastVariable(t, s))
  {
    var parent := x[..|x| - 1];
    ParentOf(t, x);
    var prev := PrevVariable(t, parent, x[|x| - 1]);
    if prev != parent && IsExpandedGroup(NodeAt(t, prev).value) then
      assert |NodeAt(t, prev).value.children| == 0 by {
        var s := parent + [x[|x| - 1] - 1];
        if prev != s {
          assert !OpenGroup(NodeAt(t, prev).value);
        }
      }
      LastVariable(t, prev)
    else prev
  }

  /** Groups a and b agree in everything but their children's subtrees: flag, size and names. */
  predicate SameShape(a: Tweak, b: Tweak)
  {
    && a.Group? && b.Group? && a.expanded == b.expanded && |a.children| == |b.children|
    && forall j :: 0 <= j < |a.children| ==> a.children[j].name == b.children[j].name
  }

  /**
   * r differs from t only in the expanded flag of the group at c: that group
   * keeps its children, the groups on the way to it keep their flags and
   * child names, and every node off that path is the same.
   */
  ghost predicate FlagOnlyAt(t: Tweak, r: Tweak, c: seq<nat>, e: bool)
  {
    && NodeAt(t, c).Some? && NodeAt(t, c).value.Group?
    && NodeAt(r, c) == Some(Group(NodeAt(t, c).value.children, e))
    && (forall k :: 0 <= k < |c| ==>
          NodeAt(t, c[..k]).Some? && NodeAt(r, c[..k]).Some? && SameShape(NodeAt(t, c[..k]).value, NodeAt(r, c[..k]).value))
    && (forall d :: !(d <= c) && !(c <= d) ==> NodeAt(r, d) == NodeAt(t, d))
  }

  /** The tree with the expanded flag of the group at cursor c set to e (Increment, Decrement, Bang). */
  function SetExpanded(t: Tweak, c: seq<nat>, e: bool): (r: Tweak)
    requires NodeAt(t, c).Some? && NodeAt(t, c).value.Group?
    ensures FlagOnlyAt(t, r, c, e)
    ensures r.Group? <==> t.Group?
    ensures WellFormed(t) ==> WellFormed(r)
    decreases c
  {
    if c == [] then
      Group(t.children, e)
    else
      var cs := t.children;
      var sub := SetExpanded(cs[c[0]].node, c[1..], e);
      var cs' := cs[c[0] := Child(cs[c[0]].name, sub)];
      assert forall i :: 0 <= i < |cs| ==> cs'[i].name == cs[i].name;
      SetExpandedStep(t, c, e, sub);
      Group(cs', t.expanded)
  }

  /** The flag change below child c[0] is a flag change of the whole tree. */
  lemma SetExpandedStep(t: Tweak, c: seq<nat>, e: bool, sub: Tweak)
    requires c != [] && t.Group? && c[0] < |t.children|
    requires FlagOnlyAt(t.children[c[0]].node, sub, c[1..], e)
    ensures FlagOnlyAt(t, Group(t.children[c[0] := Child(t.children[c[0]].name, sub)], t.expanded), c, e)
  {
    var cs := t.children;
    var child := cs[c[0]].node;
    var r := Group(cs[c[0] := Child(cs[c[0]].name, sub)], t.expanded);
    assert c == [c[0]] + c[1..];
    NodeAtCons(t, c[0], c[1..]);
    NodeAtCons(r, c[0], c[1..]);
    forall k | 0 <= k < |c|
      ensures NodeAt(t, c[..k]).Some? && NodeAt(r, c[..k]).Some? && SameShape(NodeAt(t, c[..k]).value, NodeAt(r, c[..k]).value)
    {
      if k == 0 {
        assert c[..0] == [];
      } else {
        assert c[..k] == [c[0]] + c[1..][..k - 1];
        NodeAtCons(t, c[0], c[1..][..k - 1]);
        NodeAtCons(r, c[0], c[1..][..k - 1]);
      }
    }
    forall d | !(d <= c) && !(c <= d) ensures NodeAt(r, d) == NodeAt(t, d) {
      assert d != [];
      assert d == [d[0]] + d[1..];
      if d[0] < |cs| {
        NodeAtCons(t, d[0], d[1..]);
        NodeAtCons(r, d[0], d[1..]);
        if d[0] == c[0] {
          assert !(d[1..] <= c[1..]) && !(c[1..] <= d[1..]);
        }
      }
    }
  }

  class TuningRegistry {
    /** VariableGroup::sm_RootGroup. */
    var root: Tweak
    /** s_UnregisteredPath and s_UnregisteredVariable. */
    const queuedPaths: array<string>
    const queuedVars: array<nat>
    /** s_UnregisteredCount: the queue length, or -1 once Initialize has run. */
    var unregisteredCount: int

    ghost predicate Valid()
      reads this
    {
      root.Group? && WellFormed(root) &&
      queuedPaths.Length == MAX_UNREGISTERED && queuedVars.Length == MAX_UNREGISTERED &&
      queuedPaths != queuedVars as object &&
      -1 <= unregisteredCount <= MAX_UNREGISTERED
    }

    /** The static state before any variable is constructed: an empty collapsed root, an empty queue. */
    constructor ()
      ensures Valid() && fresh(queuedPaths) && fresh(queuedVars)
      ensures root == Group([], false) && unregisteredCount == 0
    {
      root := Group([], false);
      queuedPaths := new string[MAX_UNREGISTERED](_ => "");
      queuedVars := new nat[MAX_UNREGISTERED](_ => 0);
      unregisteredCount := 0;
    }

    /** AddToVariableGraph: split the path and attach the variable, or report the clash with a variable. */
    method AddToVariableGraph(path: string, v: nat) returns (ok: bool)
      requires Valid()
      modifies this`root
      ensures Valid()
      ensures ok == AddPath(old(root), Split(path).0, Split(path).1, v).Some?
      ensures root == AddVariable(old(root), path, v)
    {
      var groups, leaf := SplitPath(path);
      match AddPath(root, groups, leaf, v)
      case Some(t) =>
        root := t;
        ok := true;
      case None =>
        ok := false;
    }

    /**
     * RegisterVariable: before Initialize the variable is queued (the queue
     * must have room and the path must fit its buffer); afterwards it goes
     * straight into the tree.
     */
    method RegisterVariable(path: string, v: nat)
      requires Valid()
      requires unregisteredCount >= 0 ==> unregisteredCount < MAX_UNREGISTERED && |path| <= MAX_PATH_CHARS
      modifies this, queuedPaths, queuedVars
      ensures Valid()
      ensures old(unregisteredCount) >= 0 ==>
        root == old(root) && unregisteredCount == old(unregisteredCount) + 1 &&
        queuedPaths[..] == old(queuedPaths[..])[old(unregisteredCount) := path] &&
        queuedVars[..] == old(queuedVars[..])[old(unregisteredCount) := v]
      ensures old(unregisteredCount) < 0 ==>
        root == AddVariable(old(root), path, v) && unregisteredCount == old(unregisteredCount) &&
        queuedPaths[..] == old(queuedPaths[..]) && queuedVars[..] == old(queuedVars[..])
    {
      if unregisteredCount >= 0 {
        var idx := unregisteredCount;
        unregisteredCount := unregisteredCount + 1;
        queuedPaths[idx] := path;
        queuedVars[idx] := v;
      } else {
        var _ := AddToVariableGraph(path, v);
      }
    }

    /**
     * Initialize: add every queued variable to the tree in queue order
     * (each queued path must be non-empty), then mark the queue as spent.
     */
    method Initialize()
      requires Valid()
      requires forall i :: 0 <= i < unregisteredCount ==> |queuedPaths[i]| > 0
      modifies this`root, this`unregisteredCount
      ensures Valid() && unregisteredCount == -1
      ensures old(unregisteredCount) >= 0 ==>
        root == AddAll(old(root), queuedPaths[..old(unregisteredCount)], queuedVars[..old(unregisteredCount)])
      ensures old(unregisteredCount) < 0 ==> root == old(root)
    {
      var i := 0;
      while i < unregisteredCount
        invariant Valid() && unregisteredCount == old(unregisteredCount)
        invariant 0 <= i && (unregisteredCount >= 0 ==> i <= unregisteredCount)
        invariant unregisteredCount >= 0 ==> root == AddAll(old(root), queuedPaths[..i], queuedVars[..i])
        invariant unregisteredCount < 0 ==> root == old(root)
      {
        assert queuedPaths[..i + 1][..i] == queuedPaths[..i];
        assert queuedVars[..i + 1][..i] == queuedVars[..i];
        var _ := AddToVariableGraph(queuedPaths[i], queuedVars[i]);
        i := i + 1;
      }
      unregisteredCount := -1;
    }
  
    /** VariableGroup::Increment on the group at cursor c: expand it. */
    method ExpandGroup(c: seq<nat>)
      requires Valid() && NodeAt(root, c).Some? && NodeAt(root, c).value.Group?
      modifies this`root
      ensures Valid()
      ensures root == SetExpanded(old(root), c, true)
    {
      root := SetExpanded(root, c, true);
    }

    /** VariableGroup::Decrement: collapse it. */
    method CollapseGroup(c: seq<nat>)
      requires Valid() && NodeAt(root, c).Some? && NodeAt(root, c).value.Group?
      modifies this`root
      ensures Valid()
      ensures root == SetExpanded(old(root), c, false)
    {
      root := SetExpanded(root, c, false);
    }

    /** VariableGroup::Bang: flip it. */
    method ToggleGroup(c: seq<nat>)
      requires Valid() && NodeAt(root, c).Some? && NodeAt(root, c).value.Group?
      modifies this`root
      ensures Valid()
      ensures root == SetExpanded(old(root), c, !old(NodeAt(root, c).value.expanded))
    {
      root := SetExpanded(root, c, !NodeAt(root, c).value.expanded);
    }
  }
}

// Animation playback of a model instance (Animation.cpp): a play state and
// time per animation, advanced each frame, and for every running animation
// one update per curve of the node that curve animates, read from the two key
// frames around the current time. The interpolation itself (lerp and slerp on
// floats) is not modelled; an update records the key frames it reads and the
// weight between them.
module Animation {

  /** AnimationState::eMode. */
  datatype Mode = Stopped | Playing | Looping

  /** One animation's playback state; a new state is stopped at time 0. */
  datatype AnimState = AnimState(mode: Mode, time: real)

  /** AnimationCurve's targetPath and keyFrameFormat enumerations. */
  datatype TargetPath = Translation | Rotation | Scale | Weights
  datatype KeyFormat = SNorm8 | UNorm8 | SNorm16 | UNorm16 | Float

  /**
   * An animation curve: numSegments evenly spaced gaps between numSegments + 1
   * key frames of keyFrameStride 4-byte words each, starting keyFrameOffset bytes
   * into the model's key-frame data.
   */
  datatype Curve = Curve(targetNode: nat, targetPath: TargetPath, keyFrameOffset: nat, keyFrameFormat: KeyFormat,
                         keyFrameStride: nat, numSegments: nat, startTime: real, rangeScale: real)

  /** An animation: its duration and its curves, a run of the model's curve list. */
  datatype AnimationSet = AnimationSet(duration: real, firstCurve: nat, numCurves: nat)

  /** The animation data a model instance plays. */
  datatype AnimModel = AnimModel(animations: seq<AnimationSet>, curves: seq<Curve>)

  /** One node update: the byte offsets of the two key frames read and the interpolation weight. */
  datatype NodeUpdate = NodeUpdate(node: nat, path: TargetPath, format: KeyFormat, key1: nat, key2: nat, lerpT: real)

  /** What the update loop asserts of a curve: some segment, and float key frames for translation and scale. */
  predicate CurveOk(c: Curve) {
    c.numSegments > 0 && c.targetPath != Weights && (c.targetPath != Rotation ==> c.keyFrameFormat == Float)
  }

  /** The animation's curves lie in the model's curve list and pass the loop's asserts. */
  predicate AnimationOk(m: AnimModel, a: AnimationSet) {
    && a.firstCurve + a.numCurves <= |m.curves|
    && forall j :: a.firstCurve <= j < a.firstCurve + a.numCurves ==> CurveOk(m.curves[j])
  }

  /**
   * What one round of the update loop needs of an animation in state s: nothing
   * when it is stopped (the loop skips it); its curves when it runs; and a
   * positive duration to wrap a looping time with fmodf.
   */
  predicate CanStep(m: AnimModel, s: AnimState, a: AnimationSet) {
    s.mode != Stopped ==> AnimationOk(m, a) && (s.mode == Looping ==> a.duration > 0.0)
  }

  /** One state per animation, each able to take its step. */
  predicate Runnable(m: AnimModel, states: seq<AnimState>) {
    |states| == |m.animations| && forall i :: 0 <= i < |states| ==> CanStep(m, states[i], m.animations[i])
  }

  // ---------------------------------------------------------------------
  // Float helpers, on reals.

  function Min(a: real, b: real): real { if a < b then a else b }
  function Max(a: real, b: real): real { if a > b then a else b }

  /** Math::Clamp: Min(Max(v, lo), hi). */
  function Clamp(v: real, lo: real, hi: real): (r: real)
    requires lo <= hi
    ensures lo <= r <= hi
    ensures lo <= v <= hi ==> r == v
  {
    Min(Max(v, lo), hi)
  }

  /** A value at or above the upper bound clamps to it. */
  lemma ClampAbove(v: real, lo: real, hi: real)
    requires lo <= hi <= v
    ensures Clamp(v, lo, hi) == hi
  {
    assert Max(v, lo) == v;
  }

  /** The integer part of r, rounded toward zero as a cast to an integer does. */
  function Trunc(r: real): int {
    if r >= 0.0 then r.Floor else -((-r).Floor)
  }

  /** fmodf: x minus the whole multiples of d that fit in it, keeping the sign of x. */
  function Fmod(x: real, d: real): real
    requires d > 0.0
  {
    x - d * (Trunc(x / d) as real)
  }

  /** For a non-negative x, fmodf lies in [0, d). */
  lemma FmodRange(x: real, d: real)
    requires d > 0.0 && x >= 0.0
    ensures 0.0 <= Fmod(x, d) < d
  {
    var q := x / d;
    assert x == d * q;
    var n := q.Floor;
    assert Trunc(q) == n;
    var f := q - n as real;
    assert Fmod(x, d) == d * q - d * (n as real);
    assert d * q - d * (n as real) == d * f;
    ScaledFraction(d, f);
    assert Fmod(x, d) == d * f;
  }

  /** A fraction in [0, 1) of a positive d lies in [0, d). */
  lemma ScaledFraction(d: real, f: real)
    requires d > 0.0 && 0.0 <= f < 1.0
    ensures 0.0 <= d * f < d
  {
    assert d - d * f == d * (1.0 - f);
  }

  // ---------------------------------------------------------------------
  // Advancing the play state.

  /**
   * One frame of UpdateAnimations for one animation: a stopped animation stays
   * as it is; otherwise time advances, wrapping for a looping animation, and a
   * playing animation past its duration stops at time 0.
   */
  function Step(s: AnimState, a: AnimationSet, deltaTime: real): AnimState
    requires s.mode == Looping ==> a.duration > 0.0
  {
    if s.mode == Stopped then s
    else
      var t := s.time + deltaTime;
      if s.mode == Looping then AnimState(Looping, Fmod(t, a.duration))
      else if t > a.duration then AnimState(Stopped, 0.0)
      else AnimState(Playing, t)
  }

  /** The time lies within the animation. */
  predicate InClip(s: AnimState, a: AnimationSet) {
    0.0 <= s.time <= a.duration
  }

  /**
   * Advancing by a non-negative time keeps the time within the animation and
   * never starts a stopped one; a looping animation keeps looping, and a
   * playing one that passes the end stops at time 0.
   */
  lemma StepKeepsInClip(s: AnimState, a: AnimationSet, deltaTime: real)
    requires InClip(s, a) && deltaTime >= 0.0 && (s.mode == Looping ==> a.duration > 0.0)
    ensures InClip(Step(s, a, deltaTime), a)
    ensures s.mode == Stopped ==> Step(s, a, deltaTime) == s
    ensures s.mode == Looping ==> Step(s, a, deltaTime).mode == Looping
    ensures s.mode == Playing && s.time + deltaTime > a.duration ==> Step(s, a, deltaTime) == AnimState(Stopped, 0.0)
    ensures s.mode == Playing && s.time + deltaTime <= a.duration ==> Step(s, a, deltaTime) == AnimState(Playing, s.time + deltaTime)
  {
    if s.mode == Looping {
      FmodRange(s.time + deltaTime, a.duration);
    }
  }

  // ---------------------------------------------------------------------
  // Sampling a curve.

  /** How far along its key frames the curve is at time t, clamped to [0, numSegments]. */
  function Progress(c: Curve, t: real): real
  {
    Clamp(Unclamped(c, t), 0.0, c.numSegments as real)
  }

  /** The progress before clamping: the time since the curve's start, in segments. */
  function Unclamped(c: Curve, t: real): real {
    (t - c.startTime) * c.rangeScale
  }

  /** Byte offset of key frame k of the curve. */
  function KeyStart(c: Curve, k: nat): nat {
    c.keyFrameOffset + 4 * c.keyFrameStride * k
  }

  /** The update as written: segment = (uint32)progress, reading key frames segment and segment + 1. */
  function SampleAsWritten(c: Curve, t: real): NodeUpdate {
    var p := Progress(c, t);
    var segment := p.Floor as nat;
    NodeUpdate(c.targetNode, c.targetPath, c.keyFrameFormat, KeyStart(c, segment), KeyStart(c, segment + 1),
               p - segment as real)
  }

  /**
   * At or after the end of a curve the progress clamps to numSegments, so the
   * update as written reads key frame numSegments + 1: one past the last key frame.
   */
  lemma SampleAsWrittenPastEnd(c: Curve, t: real)
    requires CurveOk(c) && Unclamped(c, t) >= c.numSegments as real
    ensures SampleAsWritten(c, t).key2 == KeyStart(c, c.numSegments + 1)
    ensures SampleAsWritten(c, t).lerpT == 0.0
  {
    ClampAbove(Unclamped(c, t), 0.0, c.numSegments as real);
  }

  /** The segment with the last one holding the end: key frames segment and segment + 1 both exist. */
  function SegmentOf(c: Curve, p: real): nat
    requires CurveOk(c) && 0.0 <= p
  {
    var s := p.Floor as nat;
    if s < c.numSegments then s else c.numSegments - 1
  }

  /** The update, with the end of the curve sampled as the last segment at weight 1. */
  function Sample(c: Curve, t: real): NodeUpdate
    requires CurveOk(c)
  {
    var p := Progress(c, t);
    var segment := SegmentOf(c, p);
    NodeUpdate(c.targetNode, c.targetPath, c.keyFrameFormat, KeyStart(c, segment), KeyStart(c, segment + 1),
               p - segment as real)
  }

  /** Both key frames an update reads exist, one after the other, and the weight lies in [0, 1]. */
  lemma SampleInRange(c: Curve, t: real)
    requires CurveOk(c)
    ensures var u := Sample(c, t);
      && c.keyFrameOffset <= u.key1 && u.key2 == u.key1 + 4 * c.keyFrameStride
      && u.key2 <= KeyStart(c, c.numSegments)
      && 0.0 <= u.lerpT <= 1.0
  {
    var p := Progress(c, t);
    var s := SegmentOf(c, p);
    assert s + 1 <= c.numSegments;
    assert 4 * c.keyFrameStride * (s + 1) <= 4 * c.keyFrameStride * c.numSegments by {
      MulMonotone(4 * c.keyFrameStride, s + 1, c.numSegments);
    }
  }

  lemma MulMonotone(k: nat, a: nat, b: nat)
    requires a <= b
    ensures k * a <= k * b
  {
  }

  /** Before the end of the curve the two agree. */
  lemma SampleAgrees(c: Curve, t: real)
    requires CurveOk(c) && Progress(c, t) < c.numSegments as real
    ensures Sample(c, t) == SampleAsWritten(c, t)
  {
  }

  // ---------------------------------------------------------------------
  // The whole update, as a function of the states before it.

  /** The updates of the first j curves of animation a at time t, in curve order. */
  function CurveUpdates(m: AnimModel, a: AnimationSet, t: real, j: nat): (r: seq<NodeUpdate>)
    requires AnimationOk(m, a) && j <= a.numCurves
    ensures |r| == j
  {
    if j == 0 then [] else CurveUpdates(m, a, t, j - 1) + [Sample(m.curves[a.firstCurve + j - 1], t)]
  }

  /** The k-th update of an animation's curve loop samples its k-th curve at the new time. */
  lemma {:induction false} CurveUpdatesSample(m: AnimModel, a: AnimationSet, t: real, j: nat)
    requires AnimationOk(m, a) && j <= a.numCurves
    ensures forall k :: 0 <= k < j ==> CurveUpdates(m, a, t, j)[k] == Sample(m.curves[a.firstCurve + k], t)
  {
    if j > 0 {
      CurveUpdatesSample(m, a, t, j - 1);
    }
  }

  /** The updates of the first i animations: none for a stopped one, its curves at the new time otherwise. */
  function AnimUpdates(states: seq<AnimState>, m: AnimModel, deltaTime: real, i: nat): seq<NodeUpdate>
    requires Runnable(m, states) && i <= |states|
  {
    if i == 0 then []
    else
      var a := m.animations[i - 1];
      AnimUpdates(states, m, deltaTime, i - 1)
      + (if states[i - 1].mode == Stopped then [] else CurveUpdates(m, a, Step(states[i - 1], a, deltaTime).time, a.numCurves))
  }

  /** The play states once the first i animations have taken their Step. */
  function StepsUpTo(states: seq<AnimState>, m: AnimModel, deltaTime: real, i: nat): (r: seq<AnimState>)
    requires Runnable(m, states) && i <= |states|
    ensures |r| == |states|
  {
    if i == 0 then states
    else StepsUpTo(states, m, deltaTime, i - 1)[i - 1 := Step(states[i - 1], m.animations[i - 1], deltaTime)]
  }

  /** After i steps, the first i states have stepped and the rest are untouched. */
  lemma {:induction false} StepsUpToAt(states: seq<AnimState>, m: AnimModel, deltaTime: real, i: nat)
    requires Runnable(m, states) && i <= |states|
    ensures forall k :: 0 <= k < i ==> StepsUpTo(states, m, deltaTime, i)[k] == Step(states[k], m.animations[k], deltaTime)
    ensures forall k :: i <= k < |states| ==> StepsUpTo(states, m, deltaTime, i)[k] == states[k]
  {
    if i > 0 {
      StepsUpToAt(states, m, deltaTime, i - 1);
    }
  }

  lemma CurveStep(head: seq<NodeUpdate>, m: AnimModel, a: AnimationSet, t: real, j: nat)
    requires AnimationOk(m, a) && j < a.numCurves
    ensures head + CurveUpdates(m, a, t, j + 1) == (head + CurveUpdates(m, a, t, j)) + [Sample(m.curves[a.firstCurve + j], t)]
  {
  }

  lemma AnimStep(head: seq<NodeUpdate>, states: seq<AnimState>, m: AnimModel, deltaTime: real, i: nat, mid: seq<NodeUpdate>)
    requires Runnable(m, states) && i < |states|
    requires mid == (if states[i].mode == Stopped then []
                     else CurveUpdates(m, m.animations[i], Step(states[i], m.animations[i], deltaTime).time, m.animations[i].numCurves))
    ensures head + AnimUpdates(states, m, deltaTime, i + 1) == (head + AnimUpdates(states, m, deltaTime, i)) + mid
  {
  }

  // ---------------------------------------------------------------------
  // Reset and Stop as written test the index the wrong way round.

  /** The result of a write into the state vector: the new vector, or an index past its end. */
  datatype WriteOutcome = Written(states: seq<AnimState>) | OutOfBounds(index: nat)

  /** ResetAnimation as written: nothing happens in range, and an index past the end is written to. */
  function ResetAsWritten(states: seq<AnimState>, animIdx: nat): WriteOutcome {
    if animIdx >= |states| then OutOfBounds(animIdx) else Written(states)
  }

  /** StopAnimation as written: the same inverted test. */
  function StopAsWritten(states: seq<AnimState>, animIdx: nat): WriteOutcome {
    if animIdx >= |states| then OutOfBounds(animIdx) else Written(states)
  }

  /** A playing animation at time 1 is neither rewound nor stopped, and index 1 of a one-element vector is written. */
  lemma ResetStopAsWrittenInverted()
    ensures ResetAsWritten([AnimState(Playing, 1.0)], 0) == Written([AnimState(Playing, 1.0)])
    ensures StopAsWritten([AnimState(Playing, 1.0)], 0) == Written([AnimState(Playing, 1.0)])
    ensures ResetAsWritten([AnimState(Playing, 1.0)], 1) == OutOfBounds(1)
    ensures StopAsWritten([AnimState(Playing, 1.0)], 1) == OutOfBounds(1)
  {
  }

  // ---------------------------------------------------------------------
  // The model instance.

  class ModelInstance {
    /** m_AnimState: one state per animation of the model. */
    var animState: seq<AnimState>
    /** The node updates made to the instance's animation graph, in order. */
    var nodeUpdates: seq<NodeUpdate>

    /** The constructor's state: every animation stopped at time 0. */
    constructor (numAnimations: nat)
      ensures |animState| == numAnimations && nodeUpdates == []
      ensures forall i :: 0 <= i < numAnimations ==> animState[i] == AnimState(Stopped, 0.0)
    {
      animState := seq(numAnimations, i => AnimState(Stopped, 0.0));
      nodeUpdates := [];
    }

    /** PlayAnimation: an index in range starts looping or playing from its current time; others are ignored. */
    method PlayAnimation(animIdx: nat, loop: bool)
      modifies this`animState
      ensures animIdx < |old(animState)| ==>
        animState == old(animState)[animIdx := AnimState(if loop then Looping else Playing, old(animState[animIdx].time))]
      ensures animIdx >= |old(animState)| ==> animState == old(animState)
    {
      if animIdx < |animState| {
        animState := animState[animIdx := animState[animIdx].(mode := if loop then Looping else Playing)];
      }
    }

    /** PauseAnimation: an index in range stops where it is; others are ignored. */
    method PauseAnimation(animIdx: nat)
      modifies this`animState
      ensures animIdx < |old(animState)| ==>
        animState == old(animState)[animIdx := AnimState(Stopped, old(animState[animIdx].time))]
      ensures animIdx >= |old(animState)| ==> animState == old(animState)
    {
      if animIdx < |animState| {
        animState := animState[animIdx := animState[animIdx].(mode := Stopped)];
      }
    }

    /** ResetAnimation with the evidently intended test: an index in range rewinds to time 0. */
    method ResetAnimation(animIdx: nat)
      modifies this`animState
      ensures animIdx < |old(animState)| ==>
        animState == old(animState)[animIdx := AnimState(old(animState[animIdx].mode), 0.0)]
      ensures animIdx >= |old(animState)| ==> animState == old(animState)
    {
      if animIdx < |animState| {
        animState := animState[animIdx := animState[animIdx].(time := 0.0)];
      }
    }

    /** StopAnimation with the evidently intended test: an index in range stops at time 0. */
    method StopAnimation(animIdx: nat)
      modifies this`animState
      ensures animIdx < |old(animState)| ==> animState == old(animState)[animIdx := AnimState(Stopped, 0.0)]
      ensures animIdx >= |old(animState)| ==> animState == old(animState)
    {
      if animIdx < |animState| {
        animState := animState[animIdx := AnimState(Stopped, 0.0)];
      }
    }

    /** LoopAllAnimations: every animation loops from time 0. */
    method LoopAllAnimations()
      modifies this`animState
      ensures |animState| == |old(animState)|
      ensures forall i :: 0 <= i < |animState| ==> animState[i] == AnimState(Looping, 0.0)
    {
      var i := 0;
      while i < |animState|
        invariant i <= |animState| == |old(animState)|
        invariant forall k :: 0 <= k < i ==> animState[k] == AnimState(Looping, 0.0)
      {
        animState := animState[i := AnimState(Looping, 0.0)];
        i := i + 1;
      }
    }

    /**
     * UpdateAnimations: every animation takes one Step, and every animation not
     * stopped before it updates the node of each of its curves, in order.
     */
    method UpdateAnimations(deltaTime: real, m: AnimModel)
      requires Runnable(m, animState)
      modifies this`animState, this`nodeUpdates
      ensures |animState| == |old(animState)|
      ensures forall i :: 0 <= i < |animState| ==> animState[i] == Step(old(animState[i]), m.animations[i], deltaTime)
      ensures nodeUpdates == old(nodeUpdates) + AnimUpdates(old(animState), m, deltaTime, |animState|)
    {
      ghost var states := animState;
      ghost var head := nodeUpdates;
      var i := 0;
      while i < |animState|
        invariant i <= |states| && animState == StepsUpTo(states, m, deltaTime, i)
        invariant nodeUpdates == head + AnimUpdates(states, m, deltaTime, i)
      {
        ghost var a := m.animations[i];
        StepsUpToAt(states, m, deltaTime, i);
        AnimStep(head, states, m, deltaTime, i,
                 if states[i].mode == Stopped then [] else CurveUpdates(m, a, Step(states[i], a, deltaTime).time, a.numCurves));
        StepAnimation(i, deltaTime, m);
        i := i + 1;
      }
      StepsUpToAt(states, m, deltaTime, i);
    }

    /** One round of UpdateAnimations: a stopped animation is skipped, any other steps and updates its curves' nodes. */
    method StepAnimation(i: nat, deltaTime: real, m: AnimModel)
      requires |animState| == |m.animations| && i < |animState| && CanStep(m, animState[i], m.animations[i])
      modifies this`animState, this`nodeUpdates
      ensures animState == old(animState)[i := Step(old(animState[i]), m.animations[i], deltaTime)]
      ensures nodeUpdates == old(nodeUpdates) +
                (if old(animState[i]).mode == Stopped then []
                 else CurveUpdates(m, m.animations[i], Step(old(animState[i]), m.animations[i], deltaTime).time, m.animations[i].numCurves))
    {
      var a := m.animations[i];
      if animState[i].mode == Stopped {
        return;
      }
      var next := Step(animState[i], a, deltaTime);
      animState := animState[i := next];
      UpdateCurves(a, m, next.time);
    }

    /** The curve loop of UpdateAnimations for one animation at time t. */
    method UpdateCurves(a: AnimationSet, m: AnimModel, t: real)
      requires AnimationOk(m, a)
      modifies this`nodeUpdates
      ensures nodeUpdates == old(nodeUpdates) + CurveUpdates(m, a, t, a.numCurves)
    {
      ghost var head := nodeUpdates;
      for j := 0 to a.numCurves
        invariant nodeUpdates == head + CurveUpdates(m, a, t, j)
      {
        CurveStep(head, m, a, t, j);
        nodeUpdates := nodeUpdates + [Sample(m.curves[a.firstCurve + j], t)];
      }
    }
  }
}

/** The carousel animation of the three arms: a per-frame step over the
    animation state (progress through the current 60-degree step, the pause
    between steps, and the base angle of each arm) and the resets that the
    component performs when playback stops or the direction changes. Angles
    are in degrees, as the component keeps them before converting to radians
    for display. */
module Carousel {
  import opened Common
  import opened Easing

  datatype Direction = Left | Right

  /** The signed size of one step: +60 to the right, -60 to the left. */
  function StepAngle(d: Direction): (r: int)
    ensures r == 60 || r == -60
    ensures r > 0 <==> d == Right
  {
    if d == Right then 60 else -60
  }

  /** The arm positions of the component: hidden left, visible left,
      visible right, hidden right. */
  const HiddenLeft: int := -90
  const VisibleLeft: int := -30
  const VisibleRight: int := 30
  const HiddenRight: int := 90

  /** The wraparound of a base angle after a step: at or past +90 it jumps
      to -90, at or past -90 it jumps to +90, and it stays put in between. */
  function Wrap(a: int): (r: int)
    ensures -90 <= r <= 90
    ensures a >= 90 ==> r == -90
    ensures a <= -90 ==> r == 90
    ensures -90 < a < 90 ==> r == a
  {
    if a >= 90 then -90 else if a <= -90 then 90 else a
  }

  /** The worked example of the wraparound: an arm at 70 stepping right. */
  lemma WrapExample()
    ensures Wrap(70 + StepAngle(Right)) == -90
  {
  }

  /** The base angles after a completed step: each advanced by the step and
      wrapped. */
  function Advance(arms: seq<int>, d: Direction): (r: seq<int>)
    ensures |r| == |arms|
    ensures forall i :: 0 <= i < |arms| ==> -90 <= r[i] <= 90
  {
    seq(|arms|, i requires 0 <= i < |arms| => Wrap(arms[i] + StepAngle(d)))
  }

  /** The base angles the component resets to for a direction: arms enter
      from the hidden side opposite the direction of travel. */
  function StartArms(d: Direction): (r: seq<int>)
    ensures |r| == 3
    ensures r[0] == (if d == Right then HiddenLeft else HiddenRight)
    ensures r[1] == r[0] + StepAngle(d) && r[2] == r[1] + StepAngle(d)
  {
    if d == Right then [HiddenLeft, VisibleLeft, VisibleRight]
    else [HiddenRight, VisibleRight, VisibleLeft]
  }

  /** The three arms sit on distinct positions of the direction, which are
      the entries of its start arrangement. */
  predicate OnPositions(arms: seq<int>, d: Direction) {
    && |arms| == 3
    && (forall i :: 0 <= i < 3 ==> arms[i] in StartArms(d))
    && arms[0] != arms[1] && arms[0] != arms[2] && arms[1] != arms[2]
  }

  /** Arms on distinct positions are a permutation of the start arrangement. */
  lemma OnPositionsPermutes(arms: seq<int>, d: Direction)
    requires OnPositions(arms, d)
    ensures multiset(arms) == multiset(StartArms(d))
  {
    var st := StartArms(d);
    assert arms == [arms[0], arms[1], arms[2]];
    assert st == [st[0], st[1], st[2]];
    PermutationOfThree(arms[0], arms[1], arms[2], st[0], st[1], st[2]);
  }

  /** Three distinct values drawn from {a, b, c} are a, b and c in some order. */
  lemma PermutationOfThree(x: int, y: int, z: int, a: int, b: int, c: int)
    requires x in {a, b, c} && y in {a, b, c} && z in {a, b, c}
    requires x != y && x != z && y != z
    ensures multiset{x, y, z} == multiset{a, b, c}
  {
    if x == a {
      if y == b {
        assert z == c;
      } else {
        assert y == c && z == b;
      }
    } else if x == b {
      if y == a {
        assert z == c;
      } else {
        assert y == c && z == a;
      }
    } else {
      if y == a {
        assert z == b;
      } else {
        assert y == b && z == a;
      }
    }
  }

  /** A completed step keeps the arms on distinct positions: the arm at the
      exit position wraps around to the entry position and the others move
      one place along. */
  lemma AdvanceKeepsPositions(arms: seq<int>, d: Direction)
    requires OnPositions(arms, d)
    ensures OnPositions(Advance(arms, d), d)
  {
    var r := Advance(arms, d);
    forall i | 0 <= i < 3 ensures r[i] in StartArms(d) {
      StepMovesAlong(arms[i], arms[i], d);
    }
    StepMovesAlong(arms[0], arms[1], d);
    StepMovesAlong(arms[0], arms[2], d);
    StepMovesAlong(arms[1], arms[2], d);
  }

  /** A step maps the positions of a direction onto themselves, and distinct
      positions to distinct positions. */
  lemma StepMovesAlong(a: int, b: int, d: Direction)
    requires a in StartArms(d) && b in StartArms(d)
    ensures Wrap(a + StepAngle(d)) in StartArms(d)
    ensures a != b ==> Wrap(a + StepAngle(d)) != Wrap(b + StepAngle(d))
  {
  }

  /** The animation settings: seconds per step, seconds of pause between
      steps, the easing of each step and the direction. */
  datatype Config = Config(duration: real, pauseDuration: real, easing: Easing, direction: Direction)

  /** The animation state: progress through the current step in [0, 1],
      whether the carousel is pausing between steps, the time paused so far
      and the base angle of each of the three arms. */
  datatype State = State(progress: real, paused: bool, pauseTimer: real, arms: seq<int>)

  /** The state between frames: progress below one (a completed step resets
      it), no progress while pausing, a nonnegative pause timer, and the three
      arms on distinct positions of the direction. */
  predicate Valid(s: State, d: Direction) {
    && 0.0 <= s.progress < 1.0
    && (s.paused ==> s.progress == 0.0)
    && 0.0 <= s.pauseTimer
    && OnPositions(s.arms, d)
  }

  /** One frame of the animation loop with frame time `delta`. It returns the
      next state and, on frames that advance the step, the angle shown for
      each arm: its base angle plus the step scaled by the eased progress. */
  function Tick(cfg: Config, playing: bool, s: State, delta: real): (r: (State, Option<seq<real>>))
    requires cfg.duration > 0.0 && delta >= 0.0
    ensures !playing ==> r == (s, None)
    ensures r.1.Some? <==> playing && !s.paused
    ensures r.0.arms == s.arms || r.0.arms == Advance(s.arms, cfg.direction)
    ensures r.0.arms != s.arms ==> r.0.paused && r.0.progress == 0.0
  {
    if !playing then (s, None)
    else if s.paused then
      var timer := s.pauseTimer + delta;
      if timer >= cfg.pauseDuration then (s.(paused := false, pauseTimer := 0.0), None)
      else (s.(pauseTimer := timer), None)
    else
      var p := Min(s.progress + delta / cfg.duration, 1.0);
      var shown := Shown(s.arms, cfg.direction, Apply(cfg.easing, p));
      if p >= 1.0 then (s.(progress := 0.0, paused := true, arms := Advance(s.arms, cfg.direction)), Some(shown))
      else (s.(progress := p), Some(shown))
  }

  /** The angle shown for each arm: its base angle plus the step scaled by
      the eased progress. */
  function Shown(arms: seq<int>, d: Direction, eased: real): (r: seq<real>)
    ensures |r| == |arms|
    ensures eased == 0.0 ==> forall i :: 0 <= i < |r| ==> r[i] == arms[i] as real
    ensures eased == 1.0 ==> forall i :: 0 <= i < |r| ==> r[i] == (arms[i] + StepAngle(d)) as real
  {
    seq(|arms|, i requires 0 <= i < |arms| => arms[i] as real + (StepAngle(d) as real) * eased)
  }

  function Min(a: real, b: real): (r: real)
    ensures r <= a && r <= b && (r == a || r == b)
  {
    if a <= b then a else b
  }

  /** What a frame does, case by case: nothing when not playing; while
      pausing, only the timer moves, until it reaches the pause duration,
      which resumes with a cleared timer; otherwise progress advances by
      delta / duration capped at one, and a completed step resets progress,
      starts the pause and advances the arms, while an incomplete one leaves
      the arms alone. */
  lemma TickCases(cfg: Config, playing: bool, s: State, delta: real)
    requires cfg.duration > 0.0 && delta >= 0.0
    ensures var (n, shown) := Tick(cfg, playing, s, delta);
      && (!playing ==> n == s && shown.None?)
      && (playing && s.paused ==>
            && shown.None? && n.progress == s.progress && n.arms == s.arms
            && (s.pauseTimer + delta >= cfg.pauseDuration <==> !n.paused)
            && (n.paused ==> n.pauseTimer == s.pauseTimer + delta)
            && (!n.paused ==> n.pauseTimer == 0.0))
      && (playing && !s.paused ==>
            && shown == Some(Shown(s.arms, cfg.direction, Apply(cfg.easing, Min(s.progress + delta / cfg.duration, 1.0))))
            && n.pauseTimer == s.pauseTimer
            && (s.progress + delta / cfg.duration >= 1.0 <==> n.paused)
            && (n.paused ==> n.progress == 0.0 && n.arms == Advance(s.arms, cfg.direction))
            && (!n.paused ==> n.progress == s.progress + delta / cfg.duration && n.arms == s.arms))
  {
  }

  /** A frame keeps the state valid. */
  lemma TickPreservesValid(cfg: Config, playing: bool, s: State, delta: real)
    requires cfg.duration > 0.0 && delta >= 0.0 && Valid(s, cfg.direction)
    ensures Valid(Tick(cfg, playing, s, delta).0, cfg.direction)
  {
    if playing && !s.paused {
      assert 0.0 <= delta / cfg.duration;
      if s.progress + delta / cfg.duration >= 1.0 {
        AdvanceKeepsPositions(s.arms, cfg.direction);
      }
    }
  }

  /** On every frame that moves the arms, each shown angle lies between the
      arm's base angle and the base angle plus the step, so within
      [-90, 90], provided a custom easing has its y control values in [0, 1]. */
  lemma ShownAnglesInRange(cfg: Config, s: State, delta: real)
    requires cfg.duration > 0.0 && delta >= 0.0 && Valid(s, cfg.direction)
    requires UnitBounded(cfg.easing)
    ensures var shown := Tick(cfg, true, s, delta).1;
      shown.Some? ==> |shown.value| == 3 && forall i :: 0 <= i < 3 ==> -90.0 <= shown.value[i] <= 90.0
  {
    if !s.paused {
      assert 0.0 <= delta / cfg.duration;
      var p := Min(s.progress + delta / cfg.duration, 1.0);
      var e := Apply(cfg.easing, p);
      EasingUnit(cfg.easing, p);
      assert Tick(cfg, true, s, delta).1 == Some(Shown(s.arms, cfg.direction, e));
      ShownInRange(s.arms, cfg.direction, e);
    }
  }

  /** Arms on the positions of a direction, moved part of the way of one
      step, stay within [-90, 90]. */
  lemma ShownInRange(arms: seq<int>, d: Direction, e: real)
    requires OnPositions(arms, d) && 0.0 <= e <= 1.0
    ensures forall i :: 0 <= i < 3 ==> -90.0 <= Shown(arms, d, e)[i] <= 90.0
  {
    forall i | 0 <= i < 3 ensures -90.0 <= Shown(arms, d, e)[i] <= 90.0 {
      ShownAngleInRange(arms[i], d, e);
    }
  }

  /** A position moved part of the way of one step stays within [-90, 90]. */
  lemma ShownAngleInRange(a: int, d: Direction, e: real)
    requires a in StartArms(d) && 0.0 <= e <= 1.0
    ensures -90.0 <= a as real + (StepAngle(d) as real) * e <= 90.0
  {
  }

  /** The state after a sequence of frames. */
  function Run(cfg: Config, playing: bool, s: State, deltas: seq<real>): (r: State)
    requires cfg.duration > 0.0 && forall k :: 0 <= k < |deltas| ==> deltas[k] >= 0.0
    decreases |deltas|
  {
    if |deltas| == 0 then s
    else Run(cfg, playing, Tick(cfg, playing, s, deltas[0]).0, deltas[1..])
  }

  /** Any number of frames keeps the state valid: in particular the arms
      always sit on the three positions of the direction. */
  lemma {:induction false} RunPreservesValid(cfg: Config, playing: bool, s: State, deltas: seq<real>)
    requires cfg.duration > 0.0 && forall k :: 0 <= k < |deltas| ==> deltas[k] >= 0.0
    requires Valid(s, cfg.direction)
    ensures Valid(Run(cfg, playing, s, deltas), cfg.direction)
    decreases |deltas|
  {
    if |deltas| > 0 {
      TickPreservesValid(cfg, playing, s, deltas[0]);
      RunPreservesValid(cfg, playing, Tick(cfg, playing, s, deltas[0]).0, deltas[1..]);
    }
  }

  /** After any number of frames the arms are a permutation of the start
      arrangement of the direction. */
  lemma RunPermutesArms(cfg: Config, playing: bool, s: State, deltas: seq<real>)
    requires cfg.duration > 0.0 && forall k :: 0 <= k < |deltas| ==> deltas[k] >= 0.0
    requires Valid(s, cfg.direction)
    ensures multiset(Run(cfg, playing, s, deltas).arms) == multiset(StartArms(cfg.direction))
  {
    RunPreservesValid(cfg, playing, s, deltas);
    OnPositionsPermutes(Run(cfg, playing, s, deltas).arms, cfg.direction);
  }

  /** The reset when playback stops: progress, pause and timer cleared, the
      arms left where they are. */
  function StopReset(s: State): (r: State)
    ensures r.progress == 0.0 && !r.paused && r.pauseTimer == 0.0 && r.arms == s.arms
  {
    State(0.0, false, 0.0, s.arms)
  }

  /** The reset when the direction changes (and when the component starts):
      the arms return to the start positions of the new direction. */
  function DirectionReset(d: Direction): (r: State)
    ensures r.progress == 0.0 && !r.paused && r.pauseTimer == 0.0
    ensures OnPositions(r.arms, d) && r.arms[0] == (if d == Right then HiddenLeft else HiddenRight)
  {
    State(0.0, false, 0.0, StartArms(d))
  }

  /** Both resets produce valid states. */
  lemma ResetsValid(s: State, d: Direction)
    requires Valid(s, d)
    ensures Valid(StopReset(s), d)
    ensures Valid(DirectionReset(d), d)
  {
  }
}

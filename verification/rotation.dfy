/** The spin of the classic globe: every frame each ring, and the group
    holding all three rings, turns about its three axes. A defined manual
    time sets each angle outright (the deterministic mode used while
    exporting frames); otherwise, while playing, each angle decreases in
    proportion to the frame time; otherwise nothing moves. The colour of
    each ring is the override colour when one is set. */
module Rotation {
  import opened Common

  /** The angular rate of one axis: half the global speed times the axis's
      spin multiplier. */
  function Rate(globalSpeed: real, spin: real): real {
    0.5 * globalSpeed * spin
  }

  /** The angle of an axis at manual time m. */
  function ManualAngle(rate: real, m: real): real {
    -rate * m
  }

  /** One frame for one axis. */
  function AxisStep(rate: real, manualTime: Option<real>, playing: bool, angle: real, delta: real): (r: real)
    ensures manualTime.Some? ==> r == ManualAngle(rate, manualTime.value)
    ensures manualTime.None? && playing ==> angle - r == rate * delta
    ensures manualTime.None? && !playing ==> r == angle
  {
    if manualTime.Some? then ManualAngle(rate, manualTime.value)
    else if playing then angle - rate * delta
    else angle
  }

  /** The total of a sequence of frame times. */
  function Sum(ds: seq<real>): real
    decreases |ds|
  {
    if |ds| == 0 then 0.0 else ds[0] + Sum(ds[1..])
  }

  /** The angle after playing frames of the given times, without manual time. */
  function PlayAxis(rate: real, angle: real, ds: seq<real>): real
    decreases |ds|
  {
    if |ds| == 0 then angle else PlayAxis(rate, AxisStep(rate, None, true, angle, ds[0]), ds[1..])
  }

  /** Playing frames turns the axis by the rate times the total frame time,
      wherever it started. */
  lemma {:induction false} PlayAxisTurns(rate: real, angle: real, ds: seq<real>)
    ensures PlayAxis(rate, angle, ds) == angle - rate * Sum(ds)
    decreases |ds|
  {
    if |ds| > 0 {
      var next := AxisStep(rate, None, true, angle, ds[0]);
      PlayAxisTurns(rate, next, ds[1..]);
      assert rate * Sum(ds) == rate * ds[0] + rate * Sum(ds[1..]);
    }
  }

  /** Determinism: from angle zero, playing frames of times d1..dn gives
      the angle that one manual frame at time d1 + ... + dn gives. */
  lemma PlayMatchesManual(rate: real, ds: seq<real>)
    ensures PlayAxis(rate, 0.0, ds) == ManualAngle(rate, Sum(ds))
  {
    PlayAxisTurns(rate, 0.0, ds);
  }

  /** One frame for a group turning about three axes with spin multipliers
      `spin`: the same step on each axis. */
  function Step(globalSpeed: real, spin: Vec3, manualTime: Option<real>, playing: bool, rot: Vec3, delta: real): (r: Vec3)
    ensures r.x == AxisStep(Rate(globalSpeed, spin.x), manualTime, playing, rot.x, delta)
    ensures r.y == AxisStep(Rate(globalSpeed, spin.y), manualTime, playing, rot.y, delta)
    ensures r.z == AxisStep(Rate(globalSpeed, spin.z), manualTime, playing, rot.z, delta)
  {
    if manualTime.Some? then Manual(globalSpeed, spin, manualTime.value)
    else if playing then Vec3(
      rot.x - Rate(globalSpeed, spin.x) * delta,
      rot.y - Rate(globalSpeed, spin.y) * delta,
      rot.z - Rate(globalSpeed, spin.z) * delta)
    else rot
  }

  /** The rotation of a group at manual time m. */
  function Manual(globalSpeed: real, spin: Vec3, m: real): Vec3 {
    Vec3(
      ManualAngle(Rate(globalSpeed, spin.x), m),
      ManualAngle(Rate(globalSpeed, spin.y), m),
      ManualAngle(Rate(globalSpeed, spin.z), m))
  }

  /** Manual time takes priority over playing and ignores the previous
      rotation and the frame time. */
  lemma ManualOverrides(globalSpeed: real, spin: Vec3, m: real, playing: bool, rot: Vec3, rot': Vec3, delta: real, delta': real)
    ensures Step(globalSpeed, spin, Some(m), playing, rot, delta)
         == Step(globalSpeed, spin, Some(m), !playing, rot', delta')
  {
  }

  /** The rotation after playing frames of the given times. */
  function Play(globalSpeed: real, spin: Vec3, rot: Vec3, ds: seq<real>): (r: Vec3)
    decreases |ds|
  {
    if |ds| == 0 then rot
    else Play(globalSpeed, spin, Step(globalSpeed, spin, None, true, rot, ds[0]), ds[1..])
  }

  /** Playing a group is playing each of its axes. */
  lemma {:induction false} PlayByAxis(globalSpeed: real, spin: Vec3, rot: Vec3, ds: seq<real>)
    ensures Play(globalSpeed, spin, rot, ds).x == PlayAxis(Rate(globalSpeed, spin.x), rot.x, ds)
    ensures Play(globalSpeed, spin, rot, ds).y == PlayAxis(Rate(globalSpeed, spin.y), rot.y, ds)
    ensures Play(globalSpeed, spin, rot, ds).z == PlayAxis(Rate(globalSpeed, spin.z), rot.z, ds)
    decreases |ds|
  {
    if |ds| > 0 {
      PlayByAxis(globalSpeed, spin, Step(globalSpeed, spin, None, true, rot, ds[0]), ds[1..]);
    }
  }

  /** Determinism for a group: from rest, playing frames of times d1..dn
      gives the rotation of one manual frame at time d1 + ... + dn. */
  lemma GroupPlayMatchesManual(globalSpeed: real, spin: Vec3, ds: seq<real>)
    ensures Play(globalSpeed, spin, Vec3(0.0, 0.0, 0.0), ds) == Manual(globalSpeed, spin, Sum(ds))
  {
    PlayByAxis(globalSpeed, spin, Vec3(0.0, 0.0, 0.0), ds);
    PlayMatchesManual(Rate(globalSpeed, spin.x), ds);
    PlayMatchesManual(Rate(globalSpeed, spin.y), ds);
    PlayMatchesManual(Rate(globalSpeed, spin.z), ds);
  }

  /** One ring's settings: its colour and spin multipliers. The fixed
      offset and orientation of a ring only place it and are not modelled. */
  datatype RingConfig = RingConfig(color: string, spin: Vec3)

  /** The globe's rotations: the group holding the rings, then the z, y and
      x rings. */
  datatype Globe = Globe(group: Vec3, zRing: Vec3, yRing: Vec3, xRing: Vec3)

  datatype GlobeConfig = GlobeConfig(
    globalSpeed: real, globalSpin: Vec3, zRing: RingConfig, yRing: RingConfig, xRing: RingConfig)

  /** One frame of the whole globe: the group with the global spin, each
      ring with its own. */
  function GlobeStep(c: GlobeConfig, manualTime: Option<real>, playing: bool, g: Globe, delta: real): (r: Globe)
    ensures manualTime.Some? ==> r == GlobeManual(c, manualTime.value)
    ensures manualTime.None? && !playing ==> r == g
  {
    Globe(
      Step(c.globalSpeed, c.globalSpin, manualTime, playing, g.group, delta),
      Step(c.globalSpeed, c.zRing.spin, manualTime, playing, g.zRing, delta),
      Step(c.globalSpeed, c.yRing.spin, manualTime, playing, g.yRing, delta),
      Step(c.globalSpeed, c.xRing.spin, manualTime, playing, g.xRing, delta))
  }

  /** The globe after playing frames of the given times. */
  function GlobePlay(c: GlobeConfig, g: Globe, ds: seq<real>): (r: Globe)
    decreases |ds|
  {
    if |ds| == 0 then g else GlobePlay(c, GlobeStep(c, None, true, g, ds[0]), ds[1..])
  }

  /** The globe at manual time m. */
  function GlobeManual(c: GlobeConfig, m: real): Globe {
    Globe(
      Manual(c.globalSpeed, c.globalSpin, m),
      Manual(c.globalSpeed, c.zRing.spin, m),
      Manual(c.globalSpeed, c.yRing.spin, m),
      Manual(c.globalSpeed, c.xRing.spin, m))
  }

  /** Playing the globe is playing each of its groups. */
  lemma {:induction false} GlobePlayByGroup(c: GlobeConfig, g: Globe, ds: seq<real>)
    ensures GlobePlay(c, g, ds) == Globe(
      Play(c.globalSpeed, c.globalSpin, g.group, ds),
      Play(c.globalSpeed, c.zRing.spin, g.zRing, ds),
      Play(c.globalSpeed, c.yRing.spin, g.yRing, ds),
      Play(c.globalSpeed, c.xRing.spin, g.xRing, ds))
    decreases |ds|
  {
    if |ds| > 0 {
      GlobePlayByGroup(c, GlobeStep(c, None, true, g, ds[0]), ds[1..]);
    }
  }

  /** Determinism for the globe: from rest, playing frames and one manual
      frame at their total time give the same rotations everywhere. This is
      what lets exported frames reproduce the animation. */
  lemma GlobePlayMatchesManual(c: GlobeConfig, ds: seq<real>)
    ensures var rest := Vec3(0.0, 0.0, 0.0);
      GlobePlay(c, Globe(rest, rest, rest, rest), ds) == GlobeManual(c, Sum(ds))
  {
    var rest := Vec3(0.0, 0.0, 0.0);
    GlobePlayByGroup(c, Globe(rest, rest, rest, rest), ds);
    GroupPlayMatchesManual(c.globalSpeed, c.globalSpin, ds);
    GroupPlayMatchesManual(c.globalSpeed, c.zRing.spin, ds);
    GroupPlayMatchesManual(c.globalSpeed, c.yRing.spin, ds);
    GroupPlayMatchesManual(c.globalSpeed, c.xRing.spin, ds);
  }

  /** The colour a ring is drawn with: `overrideColor || ring.color`, so the
      override when it is a non-empty string, the ring's own colour when it
      is absent or empty. */
  function RingColor(overrideColor: Option<string>, own: string): (r: string)
    ensures r == own || (overrideColor.Some? && r == overrideColor.value)
  {
    if overrideColor.Some? && overrideColor.value != "" then overrideColor.value else own
  }

  /** The override is used exactly when it is a non-empty string. */
  lemma RingColorOverride(overrideColor: Option<string>, own: string)
    ensures overrideColor.Some? && overrideColor.value != "" ==> RingColor(overrideColor, own) == overrideColor.value
    ensures overrideColor.None? || overrideColor.value == "" ==> RingColor(overrideColor, own) == own
  {
  }
}

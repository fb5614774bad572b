/** The octagon outline generator: full octagons with sharp or rounded
    corners, and the half-octagon "arm" shape. Each outline is produced both
    as an exact path (move / line / quadratic-curve commands) and as a
    sampled polyline for the on-screen renderer.

    Cosine, sine and vector normalisation are supplied as a `Trig` value, so
    every structural fact below holds whatever numbers they return. */
module Shapes {
  import opened Common

  /** Number of octagon sides. */
  const Segments: int := 8
  /** Angle between consecutive vertices. */
  const AngleStep: real := (Pi * 2.0) / 8.0
  /** Angle of vertex 0, giving flat top, bottom and sides. */
  const StartAngle: real := Pi / 8.0
  /** Number of equal steps a rounded corner is sampled at. */
  const CurveDivisions: int := 32
  /** Sampled points closer than this (squared) to the previous one are dropped. */
  const MinGap2: real := 0.000001
  /** Threshold on x for a polyline point to count as on the right side. */
  const RightX: real := 0.01
  /** Tolerance on x and y used while walking the right boundary. */
  const ScanSlack: real := 0.01

  /** The trigonometric collaborators of the generator. */
  datatype Trig = Trig(cos: real -> real, sin: real -> real, normalize: Vec3 -> Vec3)

  /** Angle of vertex i; i may be -1 or 8, as for the neighbours of the end vertices. */
  function Theta(i: int): real {
    StartAngle + (i as real) * AngleStep
  }

  /** Vertex i of the octagon of the given radius, in the XY plane. */
  function Vertex(g: Trig, radius: real, i: int): Vec3 {
    Vec3(g.cos(Theta(i)) * radius, g.sin(Theta(i)) * radius, 0.0)
  }

  // ---------------------------------------------------------------------------
  // Full octagon, sharp corners
  // ---------------------------------------------------------------------------

  /** The sharp-corner loop after i of its nine iterations: point i is vertex
      i, the path moves to point 0, lines to points 1..7 and closes on point 0. */
  ghost predicate SharpPrefix(g: Trig, radius: real, i: nat, d: OctagonData) {
    && |d.points| == i && |d.path| == i
    && (forall k :: 0 <= k < i ==> d.points[k] == Vertex(g, radius, k))
    && (i > 0 ==> d.path[0] == MoveTo(d.points[0]))
    && (forall k :: 1 <= k < i && k < 8 ==> d.path[k] == LineTo(d.points[k]))
    && (i == 9 ==> d.path[8] == LineTo(d.points[0]))
  }

  /** Iterations i..8 of the sharp-corner loop. */
  function SharpLoop(g: Trig, radius: real, i: nat, d: OctagonData): (r: OctagonData)
    requires i <= 9 && SharpPrefix(g, radius, i, d)
    ensures SharpPrefix(g, radius, 9, r)
    decreases 9 - i
  {
    if i > 8 then d
    else
      var pt := Vertex(g, radius, i);
      var points := d.points + [pt];
      var cmd := if i < 8 then (if i == 0 then MoveTo(pt) else LineTo(pt)) else LineTo(points[0]);
      SharpLoop(g, radius, i + 1, OctagonData(points, d.path + [cmd]))
  }

  /** The octagon with sharp corners: nine vertices, a move to the first,
      seven lines and a closing line back to exactly the first point. */
  function SharpOctagon(g: Trig, radius: real): (d: OctagonData)
    ensures |d.points| == 9 && |d.path| == 9
    ensures forall k :: 0 <= k < 9 ==> d.points[k] == Vertex(g, radius, k)
    ensures d.path[0] == MoveTo(d.points[0])
    ensures forall k :: 1 <= k < 8 ==> d.path[k] == LineTo(d.points[k])
    ensures d.path[8] == LineTo(d.points[0])
  {
    SharpLoop(g, radius, 0, OctagonData([], []))
  }

  // ---------------------------------------------------------------------------
  // Full octagon, rounded corners
  // ---------------------------------------------------------------------------

  /** A rounded corner: the original vertex and the two trimmed-back points. */
  datatype Corner = Corner(curr: Vec3, arcStart: Vec3, arcEnd: Vec3)

  /** Corner i: vertex i trimmed back by `cornerRadius` along the normalised
      directions towards vertices i-1 and i+1. */
  function CornerAt(g: Trig, radius: real, cornerRadius: real, i: int): (c: Corner)
    ensures c.curr == Vertex(g, radius, i)
  {
    var curr := Vertex(g, radius, i);
    var prev := Vertex(g, radius, i - 1);
    var next := Vertex(g, radius, i + 1);
    var dirPrev := g.normalize(Sub(prev, curr));
    var dirNext := g.normalize(Sub(next, curr));
    Corner(curr, Add(curr, Scale(dirPrev, cornerRadius)), Add(curr, Scale(dirNext, cornerRadius)))
  }

  /** When normalisation yields unit vectors, both trimmed-back points lie at
      distance `cornerRadius` from the vertex. */
  lemma ArcPointsAtCornerRadius(g: Trig, radius: real, cornerRadius: real, i: int)
    requires Norm2(g.normalize(Sub(Vertex(g, radius, i - 1), Vertex(g, radius, i)))) == 1.0
    requires Norm2(g.normalize(Sub(Vertex(g, radius, i + 1), Vertex(g, radius, i)))) == 1.0
    ensures Dist2(CornerAt(g, radius, cornerRadius, i).arcStart, Vertex(g, radius, i)) == cornerRadius * cornerRadius
    ensures Dist2(CornerAt(g, radius, cornerRadius, i).arcEnd, Vertex(g, radius, i)) == cornerRadius * cornerRadius
  {
    var c := CornerAt(g, radius, cornerRadius, i);
    ScaledNorm(g.normalize(Sub(Vertex(g, radius, i - 1), c.curr)), cornerRadius);
    ScaledNorm(g.normalize(Sub(Vertex(g, radius, i + 1), c.curr)), cornerRadius);
  }

  lemma ScaledNorm(u: Vec3, k: real)
    ensures Norm2(Scale(u, k)) == k * k * Norm2(u)
  {
    assert (u.x * k) * (u.x * k) == k * k * (u.x * u.x);
    assert (u.y * k) * (u.y * k) == k * k * (u.y * u.y);
    assert (u.z * k) * (u.z * k) == k * k * (u.z * u.z);
  }

  /** The quadratic Bezier blend (1-t)^2 start + 2(1-t)t control + t^2 end,
      summed in the source's order. */
  function Blend(c: Corner, t: real): Vec3 {
    Add(Add(Add(Vec3(0.0, 0.0, 0.0), Scale(c.arcStart, (1.0 - t) * (1.0 - t))),
            Scale(c.curr, 2.0 * (1.0 - t) * t)),
        Scale(c.arcEnd, t * t))
  }

  /** The blend starts at the arc start and ends at the arc end. */
  lemma BlendEndpoints(c: Corner)
    ensures Blend(c, 0.0) == c.arcStart
    ensures Blend(c, 1.0) == c.arcEnd
  {
  }

  /** Sample j of a corner, at t = j / 32. */
  function Sample(c: Corner, j: int): Vec3 {
    Blend(c, (j as real) / (CurveDivisions as real))
  }

  /** The first sample of a corner is its arc start. */
  lemma FirstSample(c: Corner)
    ensures Sample(c, 0) == c.arcStart
  {
    assert (0 as real) / (CurveDivisions as real) == 0.0;
    BlendEndpoints(c);
  }

  /** The 33 samples of a corner, at t = 0, 1/32, ..., 1. */
  function Samples(c: Corner): (ps: seq<Vec3>)
    ensures |ps| == CurveDivisions + 1
    ensures ps[0] == c.arcStart
  {
    FirstSample(c);
    seq(CurveDivisions + 1, j requires 0 <= j <= CurveDivisions => Sample(c, j))
  }

  /** Point k is farther than the minimum gap from point k-1. */
  predicate FarFromPrevious(pts: seq<Vec3>, k: int)
    requires 1 <= k < |pts|
  {
    Dist2(pts[k], pts[k - 1]) > MinGap2
  }

  /** No two consecutive points are within the minimum gap. */
  predicate Separated(pts: seq<Vec3>) {
    forall k :: 1 <= k < |pts| ==> FarFromPrevious(pts, k)
  }

  /** The duplicate filter: p is appended when the polyline is empty or p is
      farther than the minimum gap from its last point. */
  function PushSample(pts: seq<Vec3>, p: Vec3): (r: seq<Vec3>)
    ensures Separated(pts) ==> Separated(r)
    ensures r == pts || r == pts + [p]
    ensures |pts| == 0 ==> r == [p]
    ensures r == pts + [p] <==> |pts| == 0 || Dist2(p, pts[|pts| - 1]) > MinGap2
  {
    if |pts| == 0 || Dist2(p, pts[|pts| - 1]) > MinGap2 then
      assert Separated(pts) ==> Separated(pts + [p]) by {
        if Separated(pts) {
          forall k | 1 <= k < |pts| + 1 ensures FarFromPrevious(pts + [p], k) {
            if k < |pts| {
              assert FarFromPrevious(pts, k);
            }
          }
        }
      }
      pts + [p]
    else pts
  }

  /** The points qs pushed in order through the duplicate filter onto pts. */
  function PushAll(pts: seq<Vec3>, qs: seq<Vec3>): (r: seq<Vec3>)
    ensures Separated(pts) ==> Separated(r)
    ensures |pts| <= |r| <= |pts| + |qs| && r[..|pts|] == pts
    ensures |pts| == 0 && |qs| > 0 ==> |r| > 0 && r[0] == qs[0]
    decreases |qs|
  {
    if |qs| == 0 then pts
    else PushAll(PushSample(pts, qs[0]), qs[1..])
  }

  /** Every point the filter adds is one of the pushed points. */
  lemma {:induction false} PushAllFrom(pts: seq<Vec3>, qs: seq<Vec3>)
    ensures forall k :: |pts| <= k < |PushAll(pts, qs)| ==> PushAll(pts, qs)[k] in qs
    decreases |qs|
  {
    if |qs| > 0 {
      var next := PushSample(pts, qs[0]);
      var r := PushAll(next, qs[1..]);
      assert r == PushAll(pts, qs);
      PushAllFrom(next, qs[1..]);
      forall k | |pts| <= k < |r| ensures r[k] in qs {
        if k < |next| {
          assert r[k] == next[k] == qs[0];
        } else {
          assert r[k] in qs[1..];
        }
      }
    }
  }

  /** The eight corners of the rounded octagon. */
  function Corners(g: Trig, radius: real, cornerRadius: real): (cs: seq<Corner>)
    ensures |cs| == 8
    ensures forall i :: 0 <= i < 8 ==> cs[i] == CornerAt(g, radius, cornerRadius, i)
  {
    seq(8, i requires 0 <= i < 8 => CornerAt(g, radius, cornerRadius, i))
  }

  /** p is a sample of one of the corners cs[0..n-1]. */
  ghost predicate FromCorners(cs: seq<Corner>, n: nat, p: Vec3)
    requires n <= |cs|
  {
    exists i :: 0 <= i < n && p in Samples(cs[i])
  }

  /** The polyline of corners cs[0..n-1], before it is closed: the samples of
      each corner in turn, through the duplicate filter. */
  function SampleCorners(cs: seq<Corner>, n: nat): (r: seq<Vec3>)
    requires n <= |cs|
    ensures Separated(r)
    ensures n > 0 ==> |r| > 0 && r[0] == cs[0].arcStart
    decreases n
  {
    if n == 0 then []
    else
      var prefix := SampleCorners(cs, n - 1);
      var r := PushAll(prefix, Samples(cs[n - 1]));
      assert n - 1 > 0 ==> r[0] == prefix[0];
      r
  }

  /** Every polyline point is one of the 33 samples of some corner. */
  lemma {:induction false} SamplesFromCorners(cs: seq<Corner>, n: nat)
    requires n <= |cs|
    ensures forall k :: 0 <= k < |SampleCorners(cs, n)| ==> FromCorners(cs, n, SampleCorners(cs, n)[k])
    decreases n
  {
    if n > 0 {
      var prefix := SampleCorners(cs, n - 1);
      SamplesFromCorners(cs, n - 1);
      PushAllFrom(prefix, Samples(cs[n - 1]));
      ExtendFromCorners(cs, n, prefix, PushAll(prefix, Samples(cs[n - 1])));
    }
  }

  lemma ExtendFromCorners(cs: seq<Corner>, n: nat, prefix: seq<Vec3>, r: seq<Vec3>)
    requires 0 < n <= |cs|
    requires forall k :: 0 <= k < |prefix| ==> FromCorners(cs, n - 1, prefix[k])
    requires |prefix| <= |r| && r[..|prefix|] == prefix
    requires forall k :: |prefix| <= k < |r| ==> r[k] in Samples(cs[n - 1])
    ensures forall k :: 0 <= k < |r| ==> FromCorners(cs, n, r[k])
  {
    forall k | 0 <= k < |r| ensures FromCorners(cs, n, r[k]) {
      if k < |prefix| {
        assert r[k] == prefix[k];
        assert FromCorners(cs, n - 1, prefix[k]);
      }
    }
  }

  /** Commands 2i and 2i+1 of p draw corner i: a move (i = 0) or a line
      (i > 0) to its arc start, then a curve around the vertex to its arc end. */
  predicate DrawsCorner(p: seq<PathCommand>, cs: seq<Corner>, i: int)
    requires 0 <= i < |cs| && 2 * i + 1 < |p|
  {
    && p[2 * i] == (if i == 0 then MoveTo(cs[i].arcStart) else LineTo(cs[i].arcStart))
    && p[2 * i + 1] == QuadTo(cs[i].curr, cs[i].arcEnd)
  }

  lemma DrawsCornerAppend(p: seq<PathCommand>, q: seq<PathCommand>, cs: seq<Corner>, i: int)
    requires 0 <= i < |cs| && 2 * i + 1 < |p| && DrawsCorner(p, cs, i)
    ensures DrawsCorner(p + q, cs, i)
  {
    assert (p + q)[2 * i] == p[2 * i] && (p + q)[2 * i + 1] == p[2 * i + 1];
  }

  /** The path commands of corners cs[0..n-1]. */
  function CornerPath(cs: seq<Corner>, n: nat): (p: seq<PathCommand>)
    requires n <= |cs|
    ensures |p| == 2 * n
    ensures forall i :: 0 <= i < n ==> DrawsCorner(p, cs, i)
    decreases n
  {
    if n == 0 then []
    else
      var c := cs[n - 1];
      var opener := if n - 1 == 0 then MoveTo(c.arcStart) else LineTo(c.arcStart);
      var prefix := CornerPath(cs, n - 1);
      var p := prefix + [opener, QuadTo(c.curr, c.arcEnd)];
      assert forall i :: 0 <= i < n ==> DrawsCorner(p, cs, i) by {
        forall i | 0 <= i < n ensures DrawsCorner(p, cs, i) {
          if i < n - 1 {
            DrawsCornerAppend(prefix, [opener, QuadTo(c.curr, c.arcEnd)], cs, i);
          }
        }
      }
      p
  }

  /** The rounded outline of the corners cs: a move, then per corner a curve
      whose control point is the vertex, lines between corners, and a
      closing line to the first arc start. */
  function RoundedPath(cs: seq<Corner>): (p: seq<PathCommand>)
    requires |cs| > 0
    ensures |p| == 2 * |cs| + 1
    ensures forall i :: 0 <= i < |cs| ==> DrawsCorner(p, cs, i)
    ensures p[2 * |cs|] == LineTo(cs[0].arcStart)
  {
    var corners := CornerPath(cs, |cs|);
    var p := corners + [LineTo(corners[0].to)];
    assert forall i :: 0 <= i < |cs| ==> DrawsCorner(p, cs, i) by {
      forall i | 0 <= i < |cs| ensures DrawsCorner(p, cs, i) {
        DrawsCornerAppend(corners, [LineTo(corners[0].to)], cs, i);
      }
    }
    assert DrawsCorner(corners, cs, 0);
    p
  }

  /** The rounded polyline: starts at the first arc start, ends where it
      started, and keeps the minimum gap everywhere before the closing point. */
  function RoundedPoints(cs: seq<Corner>): (pts: seq<Vec3>)
    requires |cs| > 0
    ensures |pts| >= 2
    ensures pts[0] == cs[0].arcStart && pts[|pts| - 1] == pts[0]
    ensures Separated(pts[..|pts| - 1])
  {
    // The source guards the closing step with `points.length > 0`, which the
    // first sample of corner 0 always satisfies.
    var loopPoints := SampleCorners(cs, |cs|);
    var pts := loopPoints + [loopPoints[0]];
    assert pts[..|pts| - 1] == loopPoints;
    pts
  }

  /** The rounded octagon built from its corners. */
  function RoundedFrom(cs: seq<Corner>): OctagonData
    requires |cs| > 0
  {
    OctagonData(RoundedPoints(cs), RoundedPath(cs))
  }

  /** `createOctagonPoints`: sharp corners when `cornerRadius <= 0`. Either
      way the outline is a closed well-formed path: eight lines after the
      move, or eight curves each reached by the move or a line. */
  function Octagon(g: Trig, radius: real, cornerRadius: real): (d: OctagonData)
    ensures WellFormed(d.path) && Closed(d.path) && |d.points| > 0
    ensures |d.path| == if cornerRadius <= 0.0 then 9 else 17
  {
    if cornerRadius <= 0.0 then SharpOctagon(g, radius)
    else
      var cs := Corners(g, radius, cornerRadius);
      RoundedShape(cs);
      RoundedFrom(cs)
  }

  /** With rounded corners, curve i has vertex i as its control point and
      runs from the arc start to the arc end of corner i, each at distance
      `cornerRadius` from the vertex when normalisation yields unit vectors. */
  lemma RoundedCorners(g: Trig, radius: real, cornerRadius: real, i: int)
    requires cornerRadius > 0.0 && 0 <= i < 8
    requires Norm2(g.normalize(Sub(Vertex(g, radius, i - 1), Vertex(g, radius, i)))) == 1.0
    requires Norm2(g.normalize(Sub(Vertex(g, radius, i + 1), Vertex(g, radius, i)))) == 1.0
    ensures var d := Octagon(g, radius, cornerRadius);
      && d.path[2 * i + 1].QuadTo?
      && d.path[2 * i + 1].cp == Vertex(g, radius, i)
      && d.path[2 * i].to == CornerAt(g, radius, cornerRadius, i).arcStart
      && Dist2(d.path[2 * i].to, Vertex(g, radius, i)) == cornerRadius * cornerRadius
      && Dist2(d.path[2 * i + 1].to, Vertex(g, radius, i)) == cornerRadius * cornerRadius
  {
    var cs := Corners(g, radius, cornerRadius);
    var d := RoundedFrom(cs);
    assert DrawsCorner(d.path, cs, i);
    ArcPointsAtCornerRadius(g, radius, cornerRadius, i);
  }

  /** The rounded outline of n corners has curves exactly at the odd
      indices, its only move at index 0, and is a closed well-formed path. */
  lemma RoundedShape(cs: seq<Corner>)
    requires |cs| > 0
    ensures var p := RoundedPath(cs);
      && WellFormed(p) && Closed(p)
      && forall k :: 0 <= k < |p| ==> (p[k].QuadTo? <==> k % 2 == 1) && (p[k].MoveTo? <==> k == 0)
  {
    var p := RoundedPath(cs);
    forall k | 0 <= k < |p|
      ensures (p[k].QuadTo? <==> k % 2 == 1) && (p[k].MoveTo? <==> k == 0)
      ensures k >= 1 ==> p[k].LineTo? || p[k].QuadTo?
    {
      if k < 2 * |cs| {
        var i := Halve(k);
        assert DrawsCorner(p, cs, i);
      }
    }
    assert DrawsCorner(p, cs, 0);
  }

  /** k is 2i or 2i+1, the latter exactly when k is odd. */
  lemma Halve(k: nat) returns (i: nat)
    ensures k == 2 * i || k == 2 * i + 1
    ensures k % 2 == 1 <==> k == 2 * i + 1
  {
    i := k / 2;
  }

  /** Both branches produce a well-formed closed path; the sharp one has nine
      commands and nine points and no curve, the rounded one seventeen
      commands with curves exactly at the odd indices and no move after
      index 0. */
  lemma OctagonShape(g: Trig, radius: real, cornerRadius: real)
    ensures var d := Octagon(g, radius, cornerRadius);
      && WellFormed(d.path) && Closed(d.path) && |d.points| > 0
      && (cornerRadius <= 0.0 ==> |d.path| == 9 && |d.points| == 9
                                   && forall k :: 0 <= k < 9 ==> !d.path[k].QuadTo?)
      && (cornerRadius > 0.0 ==> |d.path| == 17
                                  && forall k :: 0 <= k < 17 ==>
                                       (d.path[k].QuadTo? <==> k % 2 == 1)
                                       && (d.path[k].MoveTo? <==> k == 0))
  {
    if cornerRadius > 0.0 {
      RoundedShape(Corners(g, radius, cornerRadius));
    }
  }

  // ---------------------------------------------------------------------------
  // Half octagon
  // ---------------------------------------------------------------------------

  /** Right-side vertices, top to bottom. */
  const RightIndices: seq<int> := [1, 0, 7, 6]

  /** Top end of the vertical axis: (0, apothem), apothem = radius * cos(pi/8). */
  function AxisTop(g: Trig, radius: real): Vec3 {
    Vec3(0.0, radius * g.cos(Pi / (Segments as real)), 0.0)
  }

  /** Bottom end of the vertical axis: (0, -apothem). */
  function AxisBottom(g: Trig, radius: real): Vec3 {
    Vec3(0.0, -(radius * g.cos(Pi / (Segments as real))), 0.0)
  }

  /** A line to each given point. */
  function LinesTo(pts: seq<Vec3>): (p: seq<PathCommand>)
    ensures |p| == |pts|
    ensures forall k :: 0 <= k < |p| ==> p[k] == LineTo(pts[k])
  {
    if |pts| == 0 then [] else [LineTo(pts[0])] + LinesTo(pts[1..])
  }

  /** An arm shape around the given right-side points: a move to the top of
      the axis, a line to each side point in order, a line to the bottom of
      the axis and a line back to its top; every point is paired with the
      command that targets it. */
  function Arm(g: Trig, radius: real, side: seq<Vec3>): (d: OctagonData)
    ensures |d.points| == |d.path| == |side| + 3
    ensures forall k :: 0 <= k < |d.path| ==> d.path[k].to == d.points[k]
    ensures d.path[0] == MoveTo(AxisTop(g, radius))
    ensures forall k :: 0 <= k < |side| ==> d.path[k + 1] == LineTo(side[k])
    ensures d.path[|side| + 1] == LineTo(AxisBottom(g, radius))
    ensures d.path[|side| + 2] == LineTo(AxisTop(g, radius))
  {
    var top := AxisTop(g, radius);
    var bottom := AxisBottom(g, radius);
    OctagonData([top] + side + [bottom, top],
                [MoveTo(top)] + LinesTo(side) + [LineTo(bottom), LineTo(top)])
  }

  /** Every arm shape is a closed well-formed outline. */
  lemma ArmShape(g: Trig, radius: real, side: seq<Vec3>)
    ensures WellFormed(Arm(g, radius, side).path) && Closed(Arm(g, radius, side).path)
  {
    var p := Arm(g, radius, side).path;
    forall k | 1 <= k < |p| ensures p[k].LineTo? {
      if k <= |side| {
        assert p[(k - 1) + 1] == LineTo(side[k - 1]);
      }
    }
  }

  /** The right-side vertices, top to bottom. */
  function RightVertices(g: Trig, radius: real): (right: seq<Vec3>)
    ensures |right| == 4
    ensures forall k :: 0 <= k < 4 ==> right[k] == Vertex(g, radius, RightIndices[k])
  {
    seq(4, k requires 0 <= k < 4 => Vertex(g, radius, RightIndices[k]))
  }

  /** The arm shape with sharp corners: top of the axis, the right-side
      vertices 1, 0, 7, 6, bottom of the axis, top of the axis again. */
  function SharpHalfOctagon(g: Trig, radius: real): (d: OctagonData)
    ensures |d.path| == |d.points| == 7 && WellFormed(d.path) && Closed(d.path)
    ensures d.path[0] == MoveTo(AxisTop(g, radius))
    ensures forall k :: 0 <= k < 4 ==> d.path[k + 1] == LineTo(Vertex(g, radius, RightIndices[k]))
    ensures d.path[5] == LineTo(AxisBottom(g, radius)) && d.path[6] == LineTo(AxisTop(g, radius))
  {
    ArmShape(g, radius, RightVertices(g, radius));
    Arm(g, radius, RightVertices(g, radius))
  }

  /** A y value not yet seen (-Infinity) or a finite one. */
  datatype ExtReal = NegInf | Fin(v: real)

  /** Whether y is strictly above bound + slack. */
  predicate Above(y: real, bound: ExtReal, slack: real) {
    match bound
    case NegInf => true
    case Fin(v) => y > v + slack
  }

  /** The search for the topmost right-side point over pts[..n]: the first
      index with x > 0.01 whose y is the largest among such points, with that
      y; index 0 and -Infinity when there is none. */
  function TopmostRight(pts: seq<Vec3>, n: nat): (r: (nat, ExtReal))
    requires n <= |pts|
    ensures r.1.NegInf? <==> forall k :: 0 <= k < n ==> pts[k].x <= RightX
    ensures r.1.NegInf? ==> r.0 == 0
    ensures r.1.Fin? ==>
      && r.0 < n && pts[r.0].x > RightX && pts[r.0].y == r.1.v
      && (forall k :: 0 <= k < n && pts[k].x > RightX ==> pts[k].y <= r.1.v)
      && (forall k :: 0 <= k < r.0 && pts[k].x > RightX ==> pts[k].y < r.1.v)
    decreases n
  {
    if n == 0 then (0, NegInf)
    else
      var prev := TopmostRight(pts, n - 1);
      var pt := pts[n - 1];
      if pt.x > RightX && Above(pt.y, prev.1, 0.0) then (n - 1, Fin(pt.y)) else prev
  }

  /** The index after i on a cyclic polyline of n points. */
  function Succ(i: nat, n: nat): (r: nat)
    requires i < n
    ensures r < n
    ensures r == (i + 1) % n
  {
    if i + 1 == n then
      assert n % n == 0;
      0
    else
      assert (i + 1) % n == i + 1;
      i + 1
  }

  /** The index reached from `first` after k successor steps. */
  function Walk(first: nat, k: nat, n: nat): (r: nat)
    requires first < n
    ensures r < n
  {
    if k == 0 then first else Succ(Walk(first, k - 1, n), n)
  }

  /** picked is the run of points of full met by the walk from `first`. */
  predicate RunFrom(full: seq<Vec3>, picked: seq<Vec3>, first: nat) {
    first < |full| && forall k :: 0 <= k < |picked| ==> picked[k] == full[Walk(first, k, |full|)]
  }

  /** Every point lies right of the axis, up to the scan's slack. */
  predicate RightOfAxis(pts: seq<Vec3>) {
    forall k :: 0 <= k < |pts| ==> pts[k].x > -ScanSlack
  }

  /** Appending the point at the walk's current index extends the run, and
      the successor index is the walk's next one. */
  lemma WalkExtend(full: seq<Vec3>, picked: seq<Vec3>, first: nat, idx: nat)
    requires RunFrom(full, picked, first) && idx == Walk(first, |picked|, |full|)
    ensures RunFrom(full, picked + [full[idx]], first)
    ensures Succ(idx, |full|) == Walk(first, |picked| + 1, |full|)
  {
  }

  /** The walk along the full octagon's polyline from the topmost right-side
      point, collecting points with x > -0.01 until the walk leaves the right
      side or y rises again after at least three points. It runs at most
      `|full|` iterations, and what it collects is a contiguous (cyclic) run
      of right-side points of `full`. */
  method ScanRightSide(full: seq<Vec3>, topIdx: nat, maxY: ExtReal)
    returns (picked: seq<Vec3>, first: nat, iterations: nat)
    requires |full| == 0 || topIdx < |full|
    ensures iterations <= |full| && |picked| <= iterations
    ensures RightOfAxis(picked)
    ensures |picked| > 0 ==> RunFrom(full, picked, first)
    ensures |full| > 0 && full[topIdx].x > -ScanSlack ==> |picked| > 0 && first == topIdx
  {
    picked := [];
    first := 0;
    iterations := 0;
    if |full| == 0 {
      return;
    }
    var idx: nat := topIdx;
    var lastY := maxY;
    while iterations < |full|
      invariant iterations <= |full| && |picked| <= iterations
      invariant idx < |full| && RunFrom(full, picked, first) && RightOfAxis(picked)
      invariant |picked| > 0 ==> idx == Walk(first, |picked|, |full|)
      invariant iterations == 0 ==> idx == topIdx && |picked| == 0
      invariant iterations > 0 && full[topIdx].x > -ScanSlack ==> |picked| > 0 && first == topIdx
      decreases |full| - iterations
    {
      var pt := full[idx];
      if pt.x > -ScanSlack {
        if |picked| == 0 {
          first := idx;
        }
        WalkExtend(full, picked, first, idx);
        picked := picked + [pt];
        // `points` of the source holds the axis top before the picked points.
        if 1 + |picked| > 3 && Above(pt.y, lastY, ScanSlack) {
          iterations := iterations + 1;
          break;
        }
        lastY := Fin(pt.y);
      } else if 1 + |picked| > 1 {
        iterations := iterations + 1;
        break;
      }
      idx := Succ(idx, |full|);
      iterations := iterations + 1;
    }
  }

  /** Every point of a run is a point of the polyline. */
  lemma RunMembers(full: seq<Vec3>, picked: seq<Vec3>, first: nat)
    requires RunFrom(full, picked, first)
    ensures forall k :: 0 <= k < |picked| ==> picked[k] in full
  {
    forall k | 0 <= k < |picked| ensures picked[k] in full {
      assert picked[k] == full[Walk(first, k, |full|)];
    }
  }

  /** The arm shape cut from a full polyline: the topmost right-side point
      is located, the scan collects the run from there, and the run is put
      between the axis points. Every side point is a polyline point with
      x > -0.01, and when some point lies right of x = 0.01 the first side
      point is the topmost of those. */
  method ArmFromPolyline(g: Trig, radius: real, full: seq<Vec3>) returns (d: OctagonData)
    ensures exists side :: d == Arm(g, radius, side)
    ensures forall k :: 1 <= k < |d.points| - 2 ==> d.points[k] in full && d.points[k].x > -ScanSlack
    ensures TopmostRight(full, |full|).1.Fin? ==> |d.points| > 3 && d.points[1] == full[TopmostRight(full, |full|).0]
  {
    var top := TopmostRight(full, |full|);
    var picked, first, iterations := ScanRightSide(full, top.0, top.1);
    if |picked| > 0 {
      RunMembers(full, picked, first);
    }
    if top.1.Fin? {
      assert picked[0] == full[Walk(first, 0, |full|)];
    }
    d := Arm(g, radius, picked);
    assert forall k :: 1 <= k < |d.points| - 2 ==> d.points[k] == picked[k - 1];
  }

  /** The arm shape with rounded corners: the run cut from the rounded
      octagon's polyline. */
  method RoundedHalfOctagon(g: Trig, radius: real, cornerRadius: real) returns (d: OctagonData)
    requires cornerRadius > 0.0
    ensures exists side :: d == Arm(g, radius, side)
    ensures forall k :: 1 <= k < |d.points| - 2 ==>
      d.points[k] in RoundedPoints(Corners(g, radius, cornerRadius)) && d.points[k].x > -ScanSlack
  {
    var full := RoundedPoints(Corners(g, radius, cornerRadius));
    d := ArmFromPolyline(g, radius, full);
  }

  /** `createHalfOctagonPoints`: every polyline point is paired with one
      command, the path is a closed well-formed outline that starts with a
      move to the top of the axis and ends with lines to the bottom and back
      to the top; with sharp corners it visits exactly the right-side
      vertices 1, 0, 7, 6 in between. */
  method HalfOctagon(g: Trig, radius: real, cornerRadius: real) returns (d: OctagonData)
    ensures |d.points| == |d.path| >= 3
    ensures forall k :: 0 <= k < |d.path| ==> d.path[k].to == d.points[k]
    ensures WellFormed(d.path) && Closed(d.path)
    ensures d.path[0] == MoveTo(AxisTop(g, radius))
    ensures d.path[|d.path| - 2] == LineTo(AxisBottom(g, radius))
    ensures d.path[|d.path| - 1] == LineTo(AxisTop(g, radius))
    ensures cornerRadius <= 0.0 ==> |d.path| == 7
    ensures cornerRadius <= 0.0 ==>
      forall k :: 0 <= k < 4 ==> d.path[k + 1] == LineTo(Vertex(g, radius, RightIndices[k]))
    ensures cornerRadius > 0.0 ==> forall k :: 1 <= k < |d.points| - 2 ==>
      d.points[k] in RoundedPoints(Corners(g, radius, cornerRadius))
  {
    var side;
    if cornerRadius <= 0.0 {
      side := RightVertices(g, radius);
      d := SharpHalfOctagon(g, radius);
    } else {
      d := RoundedHalfOctagon(g, radius, cornerRadius);
      side :| d == Arm(g, radius, side);
    }
    ArmShape(g, radius, side);
  }
}

/** The easing curves of the carousel animation: the linear and quadratic
    easings, a cubic-bezier easing inverted by a bounded bisection, and the
    selection of an easing by name. */
module Easing {
  import opened Common

  function Abs(x: real): real {
    if x < 0.0 then -x else x
  }

  function Square(x: real): real {
    x * x
  }

  /** 0 <= x <= 1. */
  predicate InUnit(x: real) {
    0.0 <= x <= 1.0
  }

  // ---------------------------------------------------------------------------
  // Quadratic easings
  // ---------------------------------------------------------------------------

  function EaseLinear(t: real): real {
    t
  }

  /** Quadratic ease-in: never negative, and on [0,1] it stays in [0,1]
      and lags behind the linear curve. */
  function EaseInQuad(t: real): (r: real)
    ensures 0.0 <= r
    ensures InUnit(t) ==> InUnit(r) && r <= t
  {
    if InUnit(t) then SquareUnit(t, t); t * t
    else if t < 0.0 then SquareUnit(-t, -t); t * t
    else SquareUnit(t, t); t * t
  }

  /** Quadratic ease-out: never above 1, and on [0,1] it stays in [0,1]
      and runs ahead of the linear curve. */
  function EaseOutQuad(t: real): (r: real)
    ensures r <= 1.0
    ensures InUnit(t) ==> InUnit(r) && t <= r
  {
    var u := 1.0 - t;
    if InUnit(u) then SquareUnit(u, u); 1.0 - u * u
    else if u < 0.0 then SquareUnit(-u, -u); 1.0 - u * u
    else SquareUnit(u, u); 1.0 - u * u
  }

  /** Quadratic ease-in for the first half, the mirrored ease-out after it.
      On [0,1] it stays in [0,1] and is below 1/2 exactly on the first
      half. */
  function EaseInOutQuad(t: real): (r: real)
    ensures InUnit(t) ==> InUnit(r) && (r < 0.5 <==> t < 0.5)
  {
    if t < 0.5 then
      (if 0.0 <= t then SquareUnit(t, 0.5); assert t * t <= t * 0.5 <= 0.25; 2.0 * t * t else 2.0 * t * t)
    else
      (if t <= 1.0 then SquareUnit(-2.0 * t + 2.0, 1.0); 1.0 - Square(-2.0 * t + 2.0) / 2.0
       else 1.0 - Square(-2.0 * t + 2.0) / 2.0)
  }

  /** Squaring keeps [0,1] and its order. */
  lemma SquareUnit(a: real, b: real)
    requires 0.0 <= a <= b
    ensures 0.0 <= a * a <= b * b
    ensures b <= 1.0 ==> b * b <= b
  {
    assert a * a <= a * b <= b * b;
  }

  /** The ease-out curve is the ease-in curve mirrored through (1/2, 1/2). */
  lemma EaseOutMirrorsEaseIn(t: real)
    ensures EaseOutQuad(t) == 1.0 - EaseInQuad(1.0 - t)
  {
  }

  /** The in-out curve is symmetric about (1/2, 1/2). */
  lemma EaseInOutSymmetric(t: real)
    ensures EaseInOutQuad(1.0 - t) == 1.0 - EaseInOutQuad(t)
  {
    if t < 0.5 {
      assert Square(-2.0 * (1.0 - t) + 2.0) == 4.0 * (t * t);
    } else if t > 0.5 {
      assert Square(-2.0 * t + 2.0) == 4.0 * ((1.0 - t) * (1.0 - t));
    }
  }

  /** Both branches of the in-out curve give 1/2 at the switch point. */
  lemma EaseInOutMeets()
    ensures EaseInOutQuad(0.5) == 0.5
  {
  }

  /** Each quadratic easing fixes 0 and 1. */
  lemma QuadEasingsEndpoints()
    ensures EaseLinear(0.0) == 0.0 && EaseLinear(1.0) == 1.0
    ensures EaseInQuad(0.0) == 0.0 && EaseInQuad(1.0) == 1.0
    ensures EaseOutQuad(0.0) == 0.0 && EaseOutQuad(1.0) == 1.0
    ensures EaseInOutQuad(0.0) == 0.0 && EaseInOutQuad(1.0) == 1.0
  {
  }

  /** Ease-in maps [0,1] into [0,1] monotonically. */
  lemma EaseInUnit(a: real, b: real)
    requires 0.0 <= a <= b <= 1.0
    ensures InUnit(EaseInQuad(a)) && EaseInQuad(a) <= EaseInQuad(b)
  {
    SquareUnit(a, b);
    SquareUnit(b, 1.0);
  }

  /** Ease-out maps [0,1] into [0,1] monotonically. */
  lemma EaseOutUnit(a: real, b: real)
    requires 0.0 <= a <= b <= 1.0
    ensures InUnit(EaseOutQuad(a)) && EaseOutQuad(a) <= EaseOutQuad(b)
  {
    SquareUnit(1.0 - b, 1.0 - a);
    SquareUnit(1.0 - a, 1.0);
  }

  /** Ease-in-out maps [0,1] into [0,1] monotonically; the first half lands
      below 1/2 and the second half at or above it. */
  lemma EaseInOutUnit(a: real, b: real)
    requires 0.0 <= a <= b <= 1.0
    ensures InUnit(EaseInOutQuad(a)) && EaseInOutQuad(a) <= EaseInOutQuad(b)
    ensures a < 0.5 ==> EaseInOutQuad(a) < 0.5
    ensures a >= 0.5 ==> EaseInOutQuad(a) >= 0.5
  {
    if a < 0.5 {
      SquareUnit(a, 0.5);
      assert a * a < 0.25 by {
        SquareUnit(a, a);
        assert a * a <= a * 0.5 < 0.25;
      }
    } else {
      SquareUnit(-2.0 * a + 2.0, 1.0);
    }
    if b < 0.5 {
      SquareUnit(a, b);
    } else if a >= 0.5 {
      SquareUnit(-2.0 * b + 2.0, -2.0 * a + 2.0);
      SquareUnit(-2.0 * b + 2.0, 1.0);
    } else {
      SquareUnit(-2.0 * b + 2.0, 1.0);
    }
  }

  // ---------------------------------------------------------------------------
  // Cubic bezier
  // ---------------------------------------------------------------------------

  /** Number of bisection steps. */
  const MaxSteps: nat := 20
  /** The search stops once the curve's x is this close to the target. */
  const Tolerance: real := 0.0001

  /** One coordinate of the cubic bezier from (0,0) through control values
      p1, p2 to (1,1), at parameter s. */
  function BezierCoord(p1: real, p2: real, s: real): real {
    3.0 * (1.0 - s) * (1.0 - s) * s * p1 + 3.0 * (1.0 - s) * s * s * p2 + s * s * s
  }

  /** w halved n times: w * 2^-n. */
  function Halved(w: real, n: nat): (r: real)
    ensures w > 0.0 ==> 0.0 < r <= w
  {
    if n == 0 then w else Halved(w, n - 1) / 2.0
  }

  /** The state of the bisection when it stops. */
  datatype Search = Search(low: real, high: real, steps: nat, hit: bool)

  function Mid(s: Search): real {
    (s.low + s.high) / 2.0
  }

  /** The interval brackets the parameter whose x is t: its lower end is 0 or
      has x below t, its upper end is 1 or has x at least t. */
  predicate Brackets(x: real -> real, t: real, low: real, high: real) {
    && (low == 0.0 || x(low) < t)
    && (high == 1.0 || x(high) >= t)
  }

  /** The midpoint's x is within the tolerance of t. */
  predicate HitAt(x: real -> real, t: real, low: real, high: real) {
    Abs(x((low + high) / 2.0) - t) < Tolerance
  }

  /** The half of [low, high] kept by a step that does not hit: the upper
      half when the midpoint's x is below t, the lower half otherwise. */
  function Narrow(x: real -> real, t: real, low: real, high: real): (r: (real, real))
    requires low <= high
    ensures low <= r.0 <= r.1 <= high
    ensures r.1 - r.0 == (high - low) / 2.0
    ensures Brackets(x, t, low, high) ==> Brackets(x, t, r.0, r.1)
  {
    var mid := (low + high) / 2.0;
    if x(mid) < t then (mid, high) else (low, mid)
  }

  /** Bisection steps i..19 on [low, high], stopping early on a hit. The
      interval only shrinks, and the search runs all twenty steps unless it
      stops on a hit. */
  function Bisect(x: real -> real, t: real, low: real, high: real, i: nat): (s: Search)
    requires 0.0 <= low <= high <= 1.0 && i <= MaxSteps
    ensures low <= s.low <= s.high <= high
    ensures i <= s.steps <= MaxSteps
    ensures !s.hit ==> s.steps == MaxSteps
    decreases MaxSteps - i
  {
    if i >= MaxSteps then Search(low, high, i, false)
    else if HitAt(x, t, low, high) then Search(low, high, i, true)
    else
      var next := Narrow(x, t, low, high);
      Bisect(x, t, next.0, next.1, i + 1)
  }

  /** One step of the search that does not hit continues on the kept half. */
  lemma BisectUnfold(x: real -> real, t: real, low: real, high: real, i: nat)
    requires 0.0 <= low <= high <= 1.0 && i < MaxSteps && !HitAt(x, t, low, high)
    ensures Bisect(x, t, low, high, i)
         == Bisect(x, t, Narrow(x, t, low, high).0, Narrow(x, t, low, high).1, i + 1)
  {
  }

  /** The search keeps the target bracketed. */
  lemma {:induction false} BisectBrackets(x: real -> real, t: real, low: real, high: real, i: nat)
    requires 0.0 <= low <= high <= 1.0 && i <= MaxSteps
    requires Brackets(x, t, low, high)
    ensures var s := Bisect(x, t, low, high, i); Brackets(x, t, s.low, s.high)
    decreases MaxSteps - i
  {
    if i >= MaxSteps {
      assert Bisect(x, t, low, high, i) == Search(low, high, i, false);
    } else if HitAt(x, t, low, high) {
      assert Bisect(x, t, low, high, i) == Search(low, high, i, true);
    } else {
      BisectUnfold(x, t, low, high, i);
      BisectBrackets(x, t, Narrow(x, t, low, high).0, Narrow(x, t, low, high).1, i + 1);
    }
  }

  /** A search that stops early does so on an interval whose midpoint's x is
      within the tolerance of t: the final midpoint is the one that hit. */
  lemma {:induction false} BisectHit(x: real -> real, t: real, low: real, high: real, i: nat)
    requires 0.0 <= low <= high <= 1.0 && i <= MaxSteps
    ensures var s := Bisect(x, t, low, high, i); s.hit ==> HitAt(x, t, s.low, s.high)
    decreases MaxSteps - i
  {
    if i >= MaxSteps {
      assert Bisect(x, t, low, high, i) == Search(low, high, i, false);
    } else if HitAt(x, t, low, high) {
      assert Bisect(x, t, low, high, i) == Search(low, high, i, true);
    } else {
      BisectUnfold(x, t, low, high, i);
      BisectHit(x, t, Narrow(x, t, low, high).0, Narrow(x, t, low, high).1, i + 1);
    }
  }

  /** The step count the search starts from: none taken. It takes the target
      as an argument so that a mention of the search does not make the
      verifier expand all twenty steps ahead of time. */
  function NoSteps(t: real): nat {
    0
  }

  /** The search from [0, 1]. */
  function SearchUnit(x: real -> real, t: real): (s: Search)
    ensures 0.0 <= s.low <= s.high <= 1.0 && s.steps <= MaxSteps
    ensures !s.hit ==> s.steps == MaxSteps
  {
    Bisect(x, t, 0.0, 1.0, NoSteps(t))
  }

  /** The search from [0, 1] ends on an interval that brackets the target,
      and a search that stops early has its final
      midpoint's x within the tolerance of t. */
  lemma SearchUnitFacts(x: real -> real, t: real)
    ensures var s := SearchUnit(x, t);
      && Brackets(x, t, s.low, s.high)
      && (s.hit ==> HitAt(x, t, s.low, s.high))
  {
    BisectBrackets(x, t, 0.0, 1.0, NoSteps(t));
    BisectHit(x, t, 0.0, 1.0, NoSteps(t));
  }

  /** The x coordinate of the custom curve as a function of its parameter. */
  function CurveX(x1: real, x2: real): real -> real {
    s => BezierCoord(x1, x2, s)
  }

  /** `cubicBezier(x1, y1, x2, y2)(t)`: t itself at 0 and 1; otherwise the
      curve's y at the midpoint of the final search interval. */
  function CubicBezier(x1: real, y1: real, x2: real, y2: real, t: real): (y: real)
    ensures t == 0.0 || t == 1.0 ==> y == t
  {
    if t == 0.0 || t == 1.0 then t
    else BezierCoord(y1, y2, Mid(SearchUnit(CurveX(x1, x2), t)))
  }

  /** Away from 0 and 1 the output is the curve's y at a parameter in [0,1]
      that ends the search for t: bracketed by the final interval, and with x
      within the tolerance of t when the search stopped early. With y control
      values in [0,1] the output stays in [0,1] for t in [0,1]. */
  lemma CubicBezierMeaning(x1: real, y1: real, x2: real, y2: real, t: real)
    ensures t != 0.0 && t != 1.0 ==>
      var s := SearchUnit(CurveX(x1, x2), t);
      && CubicBezier(x1, y1, x2, y2, t) == BezierCoord(y1, y2, Mid(s))
      && 0.0 <= Mid(s) <= 1.0
      && Brackets(CurveX(x1, x2), t, s.low, s.high)
      && (s.hit ==> HitAt(CurveX(x1, x2), t, s.low, s.high))
    ensures InUnit(y1) && InUnit(y2) && InUnit(t) ==> InUnit(CubicBezier(x1, y1, x2, y2, t))
  {
    if t != 0.0 && t != 1.0 {
      var s := SearchUnit(CurveX(x1, x2), t);
      SearchUnitFacts(CurveX(x1, x2), t);
      BezierRange(y1, y2, Mid(s));
    }
  }

  /** A curve whose y control values equal its x control values, such as
      (0, 0, 1, 1), follows the diagonal: the output is t itself at 0 and
      1, and within the tolerance of t whenever the search stops early. */
  lemma CubicBezierDiagonal(a: real, b: real, t: real)
    ensures t == 0.0 || t == 1.0 ==> CubicBezier(a, a, b, b, t) == t
    ensures t != 0.0 && t != 1.0 && SearchUnit(CurveX(a, b), t).hit ==>
      Abs(CubicBezier(a, a, b, b, t) - t) < Tolerance
  {
    CubicBezierMeaning(a, a, b, b, t);
  }

  /** With control values in [0,1] the curve stays in [0,1] on [0,1]: its
      three weights are nonnegative and, with (1-s)^3, sum to one. */
  lemma BezierRange(p1: real, p2: real, s: real)
    requires 0.0 <= s <= 1.0
    ensures InUnit(p1) && InUnit(p2) ==> InUnit(BezierCoord(p1, p2, s))
  {
    var a := 1.0 - s;
    MulNonneg(a, a);
    MulNonneg(s, s);
    MulNonneg(a * a, s);
    MulNonneg(a, s * s);
    MulNonneg(s * s, s);
    MulNonneg(a * a, a);
    var wa := 3.0 * ((a * a) * s);
    var wb := 3.0 * (a * (s * s));
    var wc := (s * s) * s;
    BernsteinSum(a, s);
    assert BezierCoord(p1, p2, s) == wa * p1 + wb * p2 + wc;
    if InUnit(p1) && InUnit(p2) {
      WeightedUnit(wa, wb, wc, (a * a) * a, p1, p2);
    }
  }

  /** A combination of values in [0,1] with nonnegative weights summing to at
      most one, plus the weight of an implicit 1, stays in [0,1]. */
  lemma WeightedUnit(wa: real, wb: real, wc: real, rest: real, p1: real, p2: real)
    requires 0.0 <= wa && 0.0 <= wb && 0.0 <= wc && 0.0 <= rest
    requires wa + wb + wc + rest == 1.0
    requires InUnit(p1) && InUnit(p2)
    ensures InUnit(wa * p1 + wb * p2 + wc)
  {
    MulNonneg(wa, p1);
    MulNonneg(wb, p2);
    MulNonneg(wa, 1.0 - p1);
    MulNonneg(wb, 1.0 - p2);
    assert wa * (1.0 - p1) == wa - wa * p1;
    assert wb * (1.0 - p2) == wb - wb * p2;
  }

  /** The cubic Bernstein weights of a + s = 1 sum to one. */
  lemma BernsteinSum(a: real, s: real)
    requires a + s == 1.0
    ensures 3.0 * ((a * a) * s) + 3.0 * (a * (s * s)) + (s * s) * s + (a * a) * a == 1.0
  {
    assert (a + s) * (a + s) == 1.0;
    assert (a + s) * (a + s) * (a + s) == 1.0;
  }

  lemma MulNonneg(x: real, y: real)
    requires 0.0 <= x && 0.0 <= y
    ensures 0.0 <= x * y
  {
  }

  /** What the loop keeps: after i halvings of [0, 1] the interval has width
      2^-i and the recursive search from it ends where the search from [0, 1]
      ends. */
  predicate LoopInv(x: real -> real, t: real, low: real, high: real, i: nat, target: Search) {
    && i <= MaxSteps
    && 0.0 <= low <= high <= 1.0
    && high - low == Halved(1.0, i)
    && Bisect(x, t, low, high, i) == target
  }

  /** A step that does not hit keeps the loop invariant. */
  lemma LoopStep(x: real -> real, t: real, low: real, high: real, i: nat, target: Search)
    requires LoopInv(x, t, low, high, i, target) && i < MaxSteps && !HitAt(x, t, low, high)
    ensures LoopInv(x, t, Narrow(x, t, low, high).0, Narrow(x, t, low, high).1, i + 1, target)
  {
    BisectUnfold(x, t, low, high, i);
  }

  /** When the loop stops, its interval is the one the recursive search ends
      on. */
  lemma LoopExit(x: real -> real, t: real, low: real, high: real, i: nat, target: Search)
    requires LoopInv(x, t, low, high, i, target) && (i >= MaxSteps || HitAt(x, t, low, high))
    ensures low == target.low && high == target.high
  {
    if i >= MaxSteps {
      assert Bisect(x, t, low, high, i) == Search(low, high, i, false);
    } else {
      assert Bisect(x, t, low, high, i) == Search(low, high, i, true);
    }
  }

  /** The loop of the source: at most twenty halvings of [0, 1], leaving
      early once the midpoint's x is within the tolerance of t. It ends on
      the interval of the recursive search. */
  method BisectLoop(x: real -> real, t: real) returns (low: real, high: real, steps: nat)
    ensures low == SearchUnit(x, t).low && high == SearchUnit(x, t).high
    ensures steps <= MaxSteps && high - low == Halved(1.0, steps)
  {
    ghost var target := SearchUnit(x, t);
    low, high, steps := 0.0, 1.0, NoSteps(t);
    while steps < MaxSteps && !HitAt(x, t, low, high)
      invariant LoopInv(x, t, low, high, steps, target)
      decreases MaxSteps - steps
    {
      LoopStep(x, t, low, high, steps, target);
      low, high := Narrow(x, t, low, high).0, Narrow(x, t, low, high).1;
      steps := steps + 1;
    }
    LoopExit(x, t, low, high, steps, target);
  }

  /** `cubicBezier(x1, y1, x2, y2)(t)` as the source computes it, with the
      loop; it agrees with `CubicBezier` on every input. */
  method CubicBezierLoop(x1: real, y1: real, x2: real, y2: real, t: real) returns (y: real)
    ensures y == CubicBezier(x1, y1, x2, y2, t)
  {
    if t == 0.0 || t == 1.0 {
      return t;
    }
    var low, high, steps := BisectLoop(CurveX(x1, x2), t);
    var mid := (low + high) / 2.0;
    assert mid == Mid(SearchUnit(CurveX(x1, x2), t));
    y := BezierCoord(y1, y2, mid);
  }

  // ---------------------------------------------------------------------------
  // Selection by name
  // ---------------------------------------------------------------------------

  /** Control values [x1, y1, x2, y2] of a custom curve. */
  datatype Bezier = Bezier(x1: real, y1: real, x2: real, y2: real)

  datatype Easing = Linear | EaseIn | EaseOut | EaseInOut | Custom(b: Bezier)

  /** `getEasingFunction`: the named curve; the custom curve when its control
      values are given; the in-out curve for any other name and for 'custom'
      without control values. */
  function GetEasing(name: string, custom: Option<Bezier>): (e: Easing)
    ensures name == "linear" ==> e == Linear
    ensures name == "ease-in" ==> e == EaseIn
    ensures name == "ease-out" ==> e == EaseOut
    ensures e.Custom? <==> name == "custom" && custom.Some?
    ensures e.Custom? ==> e.b == custom.value
    ensures e == EaseInOut <==>
      name == "ease-in-out" || (name == "custom" && custom.None?)
      || name !in {"linear", "ease-in", "ease-out", "ease-in-out", "custom"}
  {
    match name
    case "linear" => Linear
    case "ease-in" => EaseIn
    case "ease-out" => EaseOut
    case "ease-in-out" => EaseInOut
    case "custom" => if custom.Some? then Custom(custom.value) else EaseInOut
    case _ => EaseInOut
  }

  function Apply(e: Easing, t: real): real {
    match e
    case Linear => EaseLinear(t)
    case EaseIn => EaseInQuad(t)
    case EaseOut => EaseOutQuad(t)
    case EaseInOut => EaseInOutQuad(t)
    case Custom(b) => CubicBezier(b.x1, b.y1, b.x2, b.y2, t)
  }

  /** Control values of the custom curve's y coordinate lie in [0,1]. */
  predicate UnitBounded(e: Easing) {
    e.Custom? ==> InUnit(e.b.y1) && InUnit(e.b.y2)
  }

  /** Every easing fixes 0 and 1, and maps [0,1] into [0,1] when custom y
      control values lie in [0,1]. */
  lemma EasingUnit(e: Easing, t: real)
    ensures Apply(e, 0.0) == 0.0 && Apply(e, 1.0) == 1.0
    ensures UnitBounded(e) && InUnit(t) ==> InUnit(Apply(e, t))
  {
    if e.EaseIn? {
      assert EaseInQuad(0.0) == 0.0 && EaseInQuad(1.0) == 1.0;
      if InUnit(t) {
        EaseInUnit(t, t);
      }
    } else if e.EaseOut? {
      assert EaseOutQuad(0.0) == 0.0 && EaseOutQuad(1.0) == 1.0;
      if InUnit(t) {
        EaseOutUnit(t, t);
      }
    } else if e.Custom? {
      CubicBezierMeaning(e.b.x1, e.b.y1, e.b.x2, e.b.y2, t);
    } else if e.EaseInOut? {
      assert EaseInOutQuad(0.0) == 0.0 && EaseInOutQuad(1.0) == 1.0;
      if InUnit(t) {
        EaseInOutUnit(t, t);
      }
    }
  }

  /** Whatever the name and the control values, the selected easing fixes
      0 and 1; it maps [0,1] into [0,1] when the curve is not a custom one,
      or its y control values lie in [0,1]. */
  lemma SelectedEasingUnit(name: string, custom: Option<Bezier>, t: real)
    ensures Apply(GetEasing(name, custom), 0.0) == 0.0
    ensures Apply(GetEasing(name, custom), 1.0) == 1.0
    ensures (custom.Some? ==> InUnit(custom.value.y1) && InUnit(custom.value.y2)) && InUnit(t) ==>
      InUnit(Apply(GetEasing(name, custom), t))
  {
    EasingUnit(GetEasing(name, custom), t);
  }
}

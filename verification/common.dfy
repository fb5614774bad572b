/** Shared value types of the globe editor: optional values, 3-component
    points, the path-command variant and the (polyline, path) pair that the
    shape generator produces and the exporter consumes. */
module Common {

  /** The double nearest to pi, as `Math.PI`. */
  const Pi: real := 3.141592653589793

  /** An optional value; stands for the source's `undefined`/`null`. */
  datatype Option<+T> = None | Some(value: T)

  /** A 3-component real-valued point or vector. */
  datatype Vec3 = Vec3(x: real, y: real, z: real)

  function Add(a: Vec3, b: Vec3): Vec3 {
    Vec3(a.x + b.x, a.y + b.y, a.z + b.z)
  }

  function Sub(a: Vec3, b: Vec3): Vec3 {
    Vec3(a.x - b.x, a.y - b.y, a.z - b.z)
  }

  function Scale(a: Vec3, k: real): Vec3 {
    Vec3(a.x * k, a.y * k, a.z * k)
  }

  /** Squared length of a vector. */
  function Norm2(a: Vec3): real {
    a.x * a.x + a.y * a.y + a.z * a.z
  }

  /** Squared distance between two points. */
  function Dist2(a: Vec3, b: Vec3): real {
    Norm2(Sub(a, b))
  }

  /** One drawing instruction of an outline. `Unknown` stands for an object
      whose `type` field is none of 'M', 'L', 'Q'; the shape generator never
      produces it, but the exporter accepts untyped command lists. */
  datatype PathCommand =
    | MoveTo(to: Vec3)
    | LineTo(to: Vec3)
    | QuadTo(cp: Vec3, to: Vec3)
    | Unknown(kind: string, to: Vec3)

  /** A shape descriptor: the sampled polyline and the exact path. */
  datatype OctagonData = OctagonData(points: seq<Vec3>, path: seq<PathCommand>)

  /** The form of every generated outline: a single move at index 0 and only
      line or quadratic-curve commands after it. */
  predicate WellFormed(path: seq<PathCommand>) {
    && |path| > 0
    && path[0].MoveTo?
    && forall k :: 1 <= k < |path| ==> path[k].LineTo? || path[k].QuadTo?
  }

  /** The outline returns to where it started. */
  predicate Closed(path: seq<PathCommand>) {
    |path| > 0 && path[|path| - 1].to == path[0].to
  }
}

/** The SVG export of the rendered scene: the lines that carry their
    original points or path are collected in traversal order, each is turned
    into the `d` attribute of one `<path>` element in pixel coordinates, and
    the elements are assembled into one SVG document. The camera projection,
    the number formatting and the number-to-text conversion are parameters. */
module SvgExport {
  import opened Common

  // ---------------------------------------------------------------------------
  // Collecting the lines
  // ---------------------------------------------------------------------------

  /** The material of a drawn object: its colour as six hex digits, and its
      line width, when set. */
  datatype Material = Material(color: Option<string>, linewidth: Option<real>)

  /** An object of the scene as the traversal meets it: the original points
      and path its creator attached (if any), its material (if any), and the
      world transform it is drawn with, identified by `frame`. */
  datatype SceneObject = SceneObject(
    originalPoints: Option<seq<Vec3>>,
    originalPath: Option<seq<PathCommand>>,
    material: Option<Material>,
    frame: nat)

  /** A line to export. */
  datatype Line = Line(
    points: Option<seq<Vec3>>,
    path: Option<seq<PathCommand>>,
    color: string,
    lineWidth: real,
    frame: nat)

  /** Only objects carrying original points or an original path are lines. */
  predicate Exportable(o: SceneObject) {
    o.originalPoints.Some? || o.originalPath.Some?
  }

  /** The stroke colour: `#` and the material's hex digits, white without one. */
  function StrokeColor(m: Option<Material>): (r: string)
    ensures m.Some? && m.value.color.Some? ==> r == "#" + m.value.color.value
    ensures !(m.Some? && m.value.color.Some?) ==> r == "#ffffff"
  {
    if m.Some? && m.value.color.Some? then "#" + m.value.color.value else "#ffffff"
  }

  /** The stroke width: `material?.linewidth || 1`, so 1 when the material or
      its width is missing or the width is 0. */
  function StrokeWidth(m: Option<Material>): (r: real)
    ensures m.Some? && m.value.linewidth.Some? && m.value.linewidth.value != 0.0 ==> r == m.value.linewidth.value
    ensures !(m.Some? && m.value.linewidth.Some? && m.value.linewidth.value != 0.0) ==> r == 1.0
  {
    if m.Some? && m.value.linewidth.Some? && m.value.linewidth.value != 0.0 then m.value.linewidth.value else 1.0
  }

  function ToLine(o: SceneObject): Line {
    Line(o.originalPoints, o.originalPath, StrokeColor(o.material), StrokeWidth(o.material), o.frame)
  }

  /** The traversal's filter, in traversal order. */
  function Collect(objs: seq<SceneObject>): (r: seq<Line>)
    ensures |r| <= |objs|
    decreases |objs|
  {
    if |objs| == 0 then []
    else (if Exportable(objs[0]) then [ToLine(objs[0])] else []) + Collect(objs[1..])
  }

  /** Collecting a scene is collecting its parts one after the other. */
  lemma {:induction false} CollectAppend(a: seq<SceneObject>, b: seq<SceneObject>)
    ensures Collect(a + b) == Collect(a) + Collect(b)
    decreases |a|
  {
    if |a| > 0 {
      assert (a + b)[0] == a[0] && (a + b)[1..] == a[1..] + b;
      CollectAppend(a[1..], b);
      var head := if Exportable(a[0]) then [ToLine(a[0])] else [];
      assert Collect(a + b) == head + (Collect(a[1..]) + Collect(b));
    } else {
      assert a + b == b;
    }
  }

  /** Nothing is collected exactly when no object carries original data, and
      every collected line comes from an object that does. */
  lemma {:induction false} CollectEmpty(objs: seq<SceneObject>)
    ensures Collect(objs) == [] <==> forall k :: 0 <= k < |objs| ==> !Exportable(objs[k])
    ensures forall k :: 0 <= k < |Collect(objs)| ==>
      exists j :: 0 <= j < |objs| && Exportable(objs[j]) && Collect(objs)[k] == ToLine(objs[j])
    decreases |objs|
  {
    if |objs| > 0 {
      CollectEmpty(objs[1..]);
      var r := Collect(objs);
      var rest := Collect(objs[1..]);
      var head := if Exportable(objs[0]) then [ToLine(objs[0])] else [];
      assert r == head + rest;
      forall k | 0 <= k < |r|
        ensures exists j :: 0 <= j < |objs| && Exportable(objs[j]) && r[k] == ToLine(objs[j])
      {
        if k < |head| {
          assert Exportable(objs[0]) && r[k] == ToLine(objs[0]);
        } else {
          var j :| 0 <= j < |objs[1..]| && Exportable(objs[1..][j]) && rest[k - |head|] == ToLine(objs[1..][j]);
          assert objs[1..][j] == objs[j + 1];
        }
      }
      if forall k :: 0 <= k < |objs| ==> !Exportable(objs[k]) {
        assert forall k :: 0 <= k < |objs[1..]| ==> !Exportable(objs[1..][k]) by {
          forall k | 0 <= k < |objs[1..]| ensures !Exportable(objs[1..][k]) {
            assert objs[1..][k] == objs[k + 1];
          }
        }
      }
      if r == [] {
        forall k | 0 <= k < |objs| ensures !Exportable(objs[k]) {
          if k > 0 {
            assert objs[k] == objs[1..][k - 1];
          }
        }
      }
    }
  }

  // ---------------------------------------------------------------------------
  // Pixel coordinates
  // ---------------------------------------------------------------------------

  /** A pixel position: x to the right, y downwards. */
  datatype Pixel = Pixel(x: real, y: real)

  /** The mapping from normalised device coordinates to pixels of a
      width x height canvas: x from [-1, 1] to [0, width], y from [1, -1] to
      [0, height]. */
  function ToPixel(ndc: Vec3, width: real, height: real): (r: Pixel)
    ensures width != 0.0 && height != 0.0 ==> FromPixel(r, width, height) == (ndc.x, ndc.y)
    ensures -1.0 <= ndc.x <= 1.0 && 0.0 <= width ==> 0.0 <= r.x <= width
    ensures -1.0 <= ndc.y <= 1.0 && 0.0 <= height ==> 0.0 <= r.y <= height
  {
    var q := Pixel((ndc.x + 1.0) / 2.0 * width, (1.0 - ndc.y) / 2.0 * height);
    HalfScale(ndc.x + 1.0, width, q.x);
    HalfScale(1.0 - ndc.y, height, q.y);
    HalfRange(ndc.x + 1.0, width, q.x);
    HalfRange(1.0 - ndc.y, height, q.y);
    q
  }

  /** A value in [0, 2], halved and scaled by a non-negative w, lies in [0, w]. */
  lemma HalfRange(a: real, w: real, q: real)
    ensures q == a / 2.0 * w && 0.0 <= a <= 2.0 && 0.0 <= w ==> 0.0 <= q <= w
  {
    if q == a / 2.0 * w && 0.0 <= a <= 2.0 && 0.0 <= w {
      assert 0.0 <= a / 2.0 <= 1.0;
      assert a / 2.0 * w <= 1.0 * w;
    }
  }

  /** The centre maps to the canvas centre, the top-left device corner to
      pixel (0, 0) and the bottom-right one to (width, height). */
  lemma PixelCorners(width: real, height: real, z: real)
    ensures ToPixel(Vec3(0.0, 0.0, z), width, height) == Pixel(width / 2.0, height / 2.0)
    ensures ToPixel(Vec3(-1.0, 1.0, z), width, height) == Pixel(0.0, 0.0)
    ensures ToPixel(Vec3(1.0, -1.0, z), width, height) == Pixel(width, height)
  {
  }

  /** The inverse mapping, from pixels back to device coordinates. */
  function FromPixel(p: Pixel, width: real, height: real): (r: (real, real))
    requires width != 0.0 && height != 0.0
  {
    (2.0 * p.x / width - 1.0, 1.0 - 2.0 * p.y / height)
  }

  /** On a canvas with a nonzero size the mapping loses nothing: mapping to
      pixels and back returns the device coordinates, and vice versa. */
  lemma PixelRoundTrip(ndc: Vec3, p: Pixel, width: real, height: real)
    requires width != 0.0 && height != 0.0
    ensures FromPixel(ToPixel(ndc, width, height), width, height) == (ndc.x, ndc.y)
    ensures ToPixel(Vec3(FromPixel(p, width, height).0, FromPixel(p, width, height).1, 0.0), width, height) == p
  {
    ScaleHalf(p.x, width);
    ScaleHalf(p.y, height);
  }

  /** Scaling half of a by w and doubling over w gives a back. */
  lemma HalfScale(a: real, w: real, q: real)
    ensures w != 0.0 && q == a / 2.0 * w ==> 2.0 * q / w == a
  {
    if w != 0.0 && q == a / 2.0 * w {
      assert 2.0 * q == a * w;
    }
  }

  /** Doubling b over w and scaling half of it by w gives b back. */
  lemma ScaleHalf(b: real, w: real)
    requires w != 0.0
    ensures (2.0 * b / w - 1.0 + 1.0) / 2.0 * w == b
    ensures (1.0 - (1.0 - 2.0 * b / w)) / 2.0 * w == b
  {
    assert 2.0 * b / w * w == 2.0 * b;
  }

  // ---------------------------------------------------------------------------
  // The `d` attribute
  // ---------------------------------------------------------------------------

  /** What a line is drawn against: the canvas size, the projection of a
      point under the transform `frame` to device coordinates, `toFixed(2)`,
      and the conversion of a number to text. */
  datatype View = View(
    width: real,
    height: real,
    ndc: (nat, Vec3) -> Vec3,
    fmt: real -> string,
    num: real -> string)

  /** A point as `x,y` in formatted pixel coordinates. */
  function PointText(v: View, frame: nat, p: Vec3): string {
    var px := ToPixel(v.ndc(frame, p), v.width, v.height);
    v.fmt(px.x) + "," + v.fmt(px.y)
  }

  /** The text of one command; an unrecognised command contributes nothing. */
  function CommandD(v: View, frame: nat, c: PathCommand): (r: string)
    ensures r == "" <==> c.Unknown?
    ensures r != "" ==> |r| >= 3 && r[1] == ' ' && r[|r| - 1] == ' '
    ensures c.MoveTo? ==> r[0] == 'M'
    ensures c.LineTo? ==> r[0] == 'L'
    ensures c.QuadTo? ==> r[0] == 'Q'
  {
    match c
    case MoveTo(to) => "M " + PointText(v, frame, to) + " "
    case LineTo(to) => "L " + PointText(v, frame, to) + " "
    case QuadTo(cp, to) => "Q " + PointText(v, frame, cp) + " " + PointText(v, frame, to) + " "
    case Unknown(_, _) => ""
  }

  /** The texts of some items, one after the other. */
  function ConcatMap<T>(f: T -> string, xs: seq<T>): string
    decreases |xs|
  {
    if |xs| == 0 then "" else f(xs[0]) + ConcatMap(f, xs[1..])
  }

  /** Concatenating the texts of a + b is concatenating those of a, then of b. */
  lemma {:induction false} ConcatMapAppend<T>(f: T -> string, a: seq<T>, b: seq<T>)
    ensures ConcatMap(f, a + b) == ConcatMap(f, a) + ConcatMap(f, b)
    decreases |a|
  {
    if |a| > 0 {
      assert (a + b)[0] == a[0] && (a + b)[1..] == a[1..] + b;
      ConcatMapAppend(f, a[1..], b);
    } else {
      assert a + b == b;
    }
  }

  /** The translation of one command, as a function value. */
  function CommandText(v: View, frame: nat): PathCommand -> string {
    c => CommandD(v, frame, c)
  }

  /** The commands' texts in order. */
  function PathD(v: View, frame: nat, cs: seq<PathCommand>): (d: string)
    ensures cs == [] ==> d == ""
    ensures WellFormed(cs) ==> |d| >= 2 && d[..2] == "M "
  {
    ConcatMap(CommandText(v, frame), cs)
  }

  /** The text of a path is the texts of its parts one after the other: the
      translation keeps the commands' order. */
  lemma PathDAppend(v: View, frame: nat, a: seq<PathCommand>, b: seq<PathCommand>)
    ensures PathD(v, frame, a + b) == PathD(v, frame, a) + PathD(v, frame, b)
  {
    ConcatMapAppend(CommandText(v, frame), a, b);
  }

  /** Each drawing command is written as its letter and its points, a curve
      with its control point first, and each ends in a space. */
  lemma CommandShape(v: View, frame: nat, c: PathCommand)
    ensures c.MoveTo? || c.LineTo? || c.QuadTo? ==>
      var d := CommandD(v, frame, c);
      && |d| >= 3 && d[|d| - 1] == ' ' && d[1] == ' '
      && d[0] == (if c.MoveTo? then 'M' else if c.LineTo? then 'L' else 'Q')
      && d[2..] == (if c.QuadTo? then PointText(v, frame, c.cp) + " " else "") + PointText(v, frame, c.to) + " "
    ensures c.Unknown? ==> CommandD(v, frame, c) == ""
  {
  }

  /** A path's text is empty exactly when none of its commands is a move, a
      line or a curve. */
  lemma {:induction false} PathDEmpty(v: View, frame: nat, cs: seq<PathCommand>)
    ensures PathD(v, frame, cs) == "" <==> forall k :: 0 <= k < |cs| ==> cs[k].Unknown?
    decreases |cs|
  {
    if |cs| > 0 {
      PathDEmpty(v, frame, cs[1..]);
      CommandShape(v, frame, cs[0]);
      assert forall k :: 1 <= k < |cs| ==> cs[k] == cs[1..][k - 1];
    }
  }

  /** `xs.join(sep)`. */
  function Join(sep: string, xs: seq<string>): string
    decreases |xs|
  {
    if |xs| == 0 then "" else if |xs| == 1 then xs[0] else xs[0] + sep + Join(sep, xs[1..])
  }

  /** The total length of some strings. */
  function TotalLength(xs: seq<string>): nat
    decreases |xs|
  {
    if |xs| == 0 then 0 else |xs[0]| + TotalLength(xs[1..])
  }

  /** Joining n >= 1 strings puts exactly n - 1 separators between them. */
  lemma {:induction false} JoinLength(sep: string, xs: seq<string>)
    requires |xs| >= 1
    ensures |Join(sep, xs)| == TotalLength(xs) + (|xs| - 1) * |sep|
    decreases |xs|
  {
    if |xs| > 1 {
      JoinLength(sep, xs[1..]);
      assert TotalLength(xs[1..]) == TotalLength(xs) - |xs[0]|;
    } else {
      assert TotalLength(xs[1..]) == 0;
    }
  }

  /** Joining with one more string appends the separator and that string. */
  lemma {:induction false} JoinSnoc(sep: string, xs: seq<string>, x: string)
    requires |xs| >= 1
    ensures Join(sep, xs + [x]) == Join(sep, xs) + sep + x
    decreases |xs|
  {
    if |xs| > 1 {
      assert (xs + [x])[1..] == xs[1..] + [x];
      JoinSnoc(sep, xs[1..], x);
    } else {
      assert (xs + [x])[1..] == [x];
    }
  }

  /** The fallback text of a polyline: a move to the first point and lines
      to the others. */
  function PointsD(v: View, frame: nat, pts: seq<Vec3>): (d: string)
    ensures |d| >= 2 && d[..2] == "M "
  {
    "M " + Join(" L ", PointTexts(v, frame, pts))
  }

  /** The texts of the points of a polyline. */
  function PointTexts(v: View, frame: nat, pts: seq<Vec3>): (r: seq<string>)
    ensures |r| == |pts|
  {
    seq(|pts|, i requires 0 <= i < |pts| => PointText(v, frame, pts[i]))
  }

  /** The fallback text of a polyline is `M p0`, then ` L p` for each later
      point in order. */
  lemma PointsDSnoc(v: View, frame: nat, pts: seq<Vec3>, p: Vec3)
    ensures PointsD(v, frame, [p]) == "M " + PointText(v, frame, p)
    ensures |pts| >= 1 ==> PointsD(v, frame, pts + [p]) == PointsD(v, frame, pts) + " L " + PointText(v, frame, p)
  {
    assert PointTexts(v, frame, [p]) == [PointText(v, frame, p)];
    if |pts| >= 1 {
      var xs := PointTexts(v, frame, pts);
      assert PointTexts(v, frame, pts + [p]) == xs + [PointText(v, frame, p)];
      JoinSnoc(" L ", xs, PointText(v, frame, p));
    }
  }

  /** The `d` text of a line: its path when it has one, even an empty one,
      and otherwise its points. */
  function LineD(v: View, l: Line): (d: string)
    ensures l.path.Some? ==> d == PathD(v, l.frame, l.path.value)
    ensures l.path.None? && l.points.Some? ==> d == PointsD(v, l.frame, l.points.value)
  {
    if l.path.Some? then PathD(v, l.frame, l.path.value)
    else if l.points.Some? then PointsD(v, l.frame, l.points.value)
    else ""
  }

  /** A line drawn from points always has text, so always gets an element. */
  lemma PointsAlwaysDrawn(v: View, l: Line)
    requires l.path.None? && l.points.Some?
    ensures LineD(v, l) != ""
  {
  }

  // ---------------------------------------------------------------------------
  // Trimming
  // ---------------------------------------------------------------------------

  /** The white space `String.prototype.trim` removes: the ASCII space and
      control white space, the byte-order mark, the line and paragraph
      separators, and the Unicode space separators. */
  predicate IsSpace(c: char) {
    || c == ' ' || c == '\t' || c == '\n' || c == '\r' || c == '\U{000B}' || c == '\U{000C}'
    || c == '\U{00A0}' || c == '\U{FEFF}' || c == '\U{2028}' || c == '\U{2029}'
    || c == '\U{1680}' || ('\U{2000}' <= c <= '\U{200A}') || c == '\U{202F}' || c == '\U{205F}'
    || c == '\U{3000}'
  }

  function TrimStart(s: string): (r: string)
    ensures |r| <= |s| && r == s[|s| - |r|..]
    ensures |r| > 0 ==> !IsSpace(r[0])
    ensures forall k :: 0 <= k < |s| - |r| ==> IsSpace(s[k])
    decreases |s|
  {
    if |s| > 0 && IsSpace(s[0]) then
      var r := TrimStart(s[1..]);
      assert forall k :: 1 <= k < |s| - |r| ==> s[k] == s[1..][k - 1];
      r
    else s
  }

  function TrimEnd(s: string): (r: string)
    ensures |r| <= |s| && r == s[..|r|]
    ensures |r| > 0 ==> !IsSpace(r[|r| - 1])
    ensures forall k :: |r| <= k < |s| ==> IsSpace(s[k])
    decreases |s|
  {
    if |s| > 0 && IsSpace(s[|s| - 1]) then TrimEnd(s[..|s| - 1]) else s
  }

  /** `s.trim()`: the middle of s between its leading and trailing white
      space. */
  function Trim(s: string): (r: string) {
    TrimEnd(TrimStart(s))
  }

  /** The trimmed text is a slice of the original and everything cut off
      is white space. */
  lemma TrimSlice(s: string)
    ensures exists i, j :: (&& 0 <= i <= j <= |s| && Trim(s) == s[i..j]
      && (forall k :: 0 <= k < i ==> IsSpace(s[k]))
      && (forall k :: j <= k < |s| ==> IsSpace(s[k])))
  {
    var a := TrimStart(s);
    var i := |s| - |a|;
    var r := TrimEnd(a);
    var j := i + |r|;
    assert r == s[i..j];
    forall k | j <= k < |s| ensures IsSpace(s[k]) {
      assert s[k] == a[k - i];
    }
  }

  /** The trimmed text has no white space at its ends, so trimming again
      changes nothing. */
  lemma TrimClean(s: string)
    ensures |Trim(s)| > 0 ==> !IsSpace(Trim(s)[0]) && !IsSpace(Trim(s)[|Trim(s)| - 1])
    ensures Trim(Trim(s)) == Trim(s)
  {
    var a := TrimStart(s);
    var r := TrimEnd(a);
    if |r| > 0 {
      assert r[0] == a[0];
    }
    TrimStartClean(r);
    TrimEndClean(r);
  }

  lemma TrimStartClean(s: string)
    requires |s| == 0 || !IsSpace(s[0])
    ensures TrimStart(s) == s
  {
  }

  lemma TrimEndClean(s: string)
    requires |s| == 0 || !IsSpace(s[|s| - 1])
    ensures TrimEnd(s) == s
  {
  }

  // ---------------------------------------------------------------------------
  // Assembly
  // ---------------------------------------------------------------------------

  /** The `<path>` element of a line with text d. */
  function Element(v: View, l: Line, d: string): string {
    "<path d=\"" + Trim(d) + "\" stroke=\"" + l.color + "\" stroke-width=\"" + v.num(l.lineWidth)
    + "\" fill=\"none\" stroke-linecap=\"round\" stroke-linejoin=\"round\" />"
  }

  /** One element per line whose text is not empty, in order. */
  function Elements(v: View, lines: seq<Line>): (r: seq<string>)
    ensures |r| <= |lines|
    decreases |lines|
  {
    if |lines| == 0 then []
    else
      var d := LineD(v, lines[0]);
      (if d != "" then [Element(v, lines[0], d)] else []) + Elements(v, lines[1..])
  }

  /** Every line has text. */
  predicate AllDrawn(v: View, lines: seq<Line>) {
    forall k :: 0 <= k < |lines| ==> LineD(v, lines[k]) != ""
  }

  /** The first line adds one element when it has text and none otherwise. */
  lemma ElementsLength(v: View, lines: seq<Line>)
    requires |lines| > 0
    ensures |Elements(v, lines)| == (if LineD(v, lines[0]) != "" then 1 else 0) + |Elements(v, lines[1..])|
  {
  }

  /** Every line gets an element exactly when every line has text. */
  lemma {:induction false} ElementsAll(v: View, lines: seq<Line>)
    ensures |Elements(v, lines)| == |lines| <==> AllDrawn(v, lines)
    decreases |lines|
  {
    if |lines| > 0 {
      var rest := lines[1..];
      ElementsAll(v, rest);
      var d := LineD(v, lines[0]);
      if d == "" {
        assert !AllDrawn(v, lines);
        ElementsLength(v, lines);
      } else {
        ElementsLength(v, lines);
        if AllDrawn(v, lines) {
          forall k | 0 <= k < |rest| ensures LineD(v, rest[k]) != "" {
            assert rest[k] == lines[k + 1];
          }
        }
        if AllDrawn(v, rest) {
          forall k | 0 <= k < |lines| ensures LineD(v, lines[k]) != "" {
            if k > 0 {
              assert lines[k] == rest[k - 1];
            }
          }
        }
      }
    }
  }

  /** The background: `bgColor || 'black'`. */
  function Background(bgColor: Option<string>): (r: string)
    ensures bgColor.Some? && bgColor.value != "" ==> r == bgColor.value
    ensures bgColor.None? || bgColor.value == "" ==> r == "black"
  {
    if bgColor.Some? && bgColor.value != "" then bgColor.value else "black"
  }

  /** The document before trimming: a leading newline, the `<svg>` element
      with the canvas as view box and the background colour, a comment, and
      the elements on their own indented lines. */
  function Document(v: View, elements: seq<string>, bgColor: Option<string>): string {
    "\n" + "<svg" + SvgTail(v, elements, bgColor)
  }

  function SvgTail(v: View, elements: seq<string>, bgColor: Option<string>): string {
    " xmlns=\"http://www.w3.org/2000/svg\" viewBox=\"0 0 " + v.num(v.width) + " " + v.num(v.height)
    + "\" style=\"background-color: " + Background(bgColor) + ";\">\n"
    + "  <!-- WCM Globe Logo - Exported SVG -->\n"
    + "  " + Join("\n  ", elements) + "\n</svg>\n    "
  }

  /** `generateSVG`: the empty string when no line is collected, the trimmed
      document otherwise. */
  function GenerateSvg(v: View, objs: seq<SceneObject>, bgColor: Option<string>): (r: string)
    ensures Collect(objs) == [] <==> r == ""
    ensures r != "" ==> |r| >= 4 && r[..4] == "<svg"
  {
    var lines := Collect(objs);
    if |lines| == 0 then ""
    else
      var tail := SvgTail(v, Elements(v, lines), bgColor);
      assert Document(v, Elements(v, lines), bgColor) == "\n" + "<svg" + tail;
      TrimSvg(tail);
      Trim(Document(v, Elements(v, lines), bgColor))
  }

  /** The result is empty exactly when no object carries original data, and
      otherwise it is a document starting with `<svg`. */
  lemma GenerateSvgEmpty(v: View, objs: seq<SceneObject>, bgColor: Option<string>)
    ensures GenerateSvg(v, objs, bgColor) == "" <==> forall k :: 0 <= k < |objs| ==> !Exportable(objs[k])
    ensures GenerateSvg(v, objs, bgColor) != "" ==>
      |GenerateSvg(v, objs, bgColor)| >= 4 && GenerateSvg(v, objs, bgColor)[..4] == "<svg"
  {
    CollectEmpty(objs);
  }

  /** Trimming the document drops the leading newline and keeps `<svg`. */
  lemma TrimSvg(tail: string)
    ensures |Trim("\n" + "<svg" + tail)| >= 4 && Trim("\n" + "<svg" + tail)[..4] == "<svg"
  {
    var body := "<svg" + tail;
    assert "\n" + "<svg" + tail == ['\n'] + body;
    assert body[..4] == "<svg";
    SvgOpening(body);
    TrimDropsLead('\n', body);
    TrimEndKeepsPrefix(body, 4);
  }

  /** The characters of `<svg` are not white space. */
  lemma SvgOpening(body: string)
    requires |body| >= 4 && body[..4] == "<svg"
    ensures forall k :: 0 <= k < 4 ==> !IsSpace(body[k])
  {
    assert body[0] == '<' && body[1] == 's' && body[2] == 'v' && body[3] == 'g';
  }

  /** A white space character in front of text that starts with a non-space
      is all that trimming the start removes. */
  lemma TrimDropsLead(c: char, body: string)
    requires IsSpace(c) && |body| > 0 && !IsSpace(body[0])
    ensures Trim([c] + body) == TrimEnd(body)
  {
    assert ([c] + body)[1..] == body;
    TrimStartClean(body);
  }

  /** Trimming the end of a text that starts with some non-space characters
      keeps them. */
  lemma TrimEndKeepsPrefix(s: string, n: nat)
    requires n <= |s| && forall k :: 0 <= k < n ==> !IsSpace(s[k])
    ensures |TrimEnd(s)| >= n && TrimEnd(s)[..n] == s[..n]
  {
  }

  // ---------------------------------------------------------------------------
  // The export trigger
  // ---------------------------------------------------------------------------

  /** What an export request leads to: nothing, the document handed to a
      callback, or the document downloaded. */
  datatype Effect = NoEffect | Handed(svg: string) | Downloaded(svg: string)

  /** The exporter's reaction to a trigger value, given the last handled
      trigger and the document the scene would produce now: trigger 0 and a
      repeated trigger are ignored; otherwise the trigger is recorded, and a
      non-empty document goes to the callback when there is one and is
      downloaded otherwise. */
  function OnTrigger(last: int, trigger: int, svg: string, hasCallback: bool): (r: (int, Effect))
    ensures trigger == 0 || trigger == last ==> r == (last, NoEffect)
    ensures trigger != 0 && trigger != last ==> r.0 == trigger
    ensures r.1 != NoEffect <==> trigger != 0 && trigger != last && svg != ""
    ensures r.1.Handed? ==> hasCallback && r.1.svg == svg
    ensures r.1.Downloaded? ==> !hasCallback && r.1.svg == svg
  {
    if trigger == 0 || trigger == last then (last, NoEffect)
    else if svg == "" then (trigger, NoEffect)
    else if hasCallback then (trigger, Handed(svg))
    else (trigger, Downloaded(svg))
  }

  /** Handling the same trigger again does nothing, whatever the scene now
      produces. */
  lemma OnTriggerIdempotent(last: int, trigger: int, svg: string, svg': string, hasCallback: bool)
    ensures var first := OnTrigger(last, trigger, svg, hasCallback);
      OnTrigger(first.0, trigger, svg', hasCallback) == (first.0, NoEffect)
  {
  }
}

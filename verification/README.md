# WCM globe editor — a Dafny model of its core

This project models the core of the WCM globe logo editor, a browser tool
that draws the WCM logo as line art, animates it, and exports it as SVG:

- **Shapes** (`shapes.dfy`). The octagon outline generator. It covers the
  sharp octagon, the rounded octagon (trimmed corners, quadratic curves and a
  sampled polyline with a duplicate filter), and the half-octagon "arm" shape
  of the carousel. The arm is built either from the four right-side vertices
  or by walking the rounded polyline's right boundary.
- **Easing** (`easing.dfy`). The carousel's easing curves. These are the
  four quadratic easings and the custom cubic bezier, which finds its
  parameter with a bounded 20-step bisection. The loop is shown equal to a
  recursive reference search. The file also has the selection of a curve by
  name.
- **Carousel** (`carousel.dfy`). The per-frame step of the carousel
  animation: progress, the pause between steps, the eased angles shown, and
  the wraparound of the three arms' base angles. It also has the resets on
  stop and on a change of direction.
- **Rotation** (`rotation.dfy`). The per-frame rotation of the classic globe,
  in manual, playing or idle mode. Playing is proved to agree with manual
  time, which is what makes exported frames deterministic. The file also has
  the ring colour override.
- **SvgExport** (`svg_export.dfy`). It covers:
  - collecting the exportable lines;
  - mapping to pixels;
  - turning path commands and polylines into `d` attributes;
  - trimming;
  - assembling the document;
  - the export trigger guard.
- **FrameExport** (`frame_export.dfy`). The frame-sequence export. It covers
  the padded frame file names, the export state machine and its frame
  timing, the capture guard that fires at most once per frame, and the
  bezier editor's coordinate mapping.
- **Common** (`common.dfy`). The shared types: the optional value, the 3D
  point, the path command variant and the (points, path) pair.

External collaborators are parameters:

- trigonometry and vector normalisation (`Shapes.Trig`);
- the camera projection, `toFixed(2)` and number-to-text conversion
  (`SvgExport.View`);
- the outcome of file writes and of the directory picker (booleans).

All numbers are mathematical reals, not doubles.

Three behaviours of the code that are easy to misread:

- A rounded octagon's path starts with a move to the first arc start, not a
  line.
- The sample filter keeps a point whose squared distance to the previous one
  is strictly greater than 1e-6. A point at exactly 1e-6 is dropped.
- An export whose frame count is 0 still writes `frame_0000.svg` before it
  stops.

## Model

| member | source | states |
|---|---|---|
| Shapes.SharpOctagon | src/utils.ts:26-41 | Nine points, vertex 0 through vertex 8. The path is a move to the first point, lines to points 1..7, and a closing line back to point 0. |
| Shapes.ArcPointsAtCornerRadius | src/utils.ts:53-66 | When normalisation yields unit vectors, both trimmed-back points of a corner lie at distance `cornerRadius` from the vertex. |
| Shapes.BlendEndpoints | src/utils.ts:81-87 | The quadratic blend of a corner starts at its arc start (t = 0) and ends at its arc end (t = 1). |
| Shapes.PushSample | src/utils.ts:89-92 | A point is appended exactly when the polyline is empty or the point is farther than 1e-6 (squared) from the last point. Otherwise nothing changes, and separation is kept. |
| Shapes.PushAll | src/utils.ts:81-93 | Pushing a corner's samples keeps the polyline's prefix and its separation. It adds at most one point per sample, and it starts with the first sample on an empty polyline. |
| Shapes.PushAllFrom | src/utils.ts:81-93 | Every point the duplicate filter adds is one of the pushed samples. |
| Shapes.SampleCorners | src/utils.ts:44-94 | The polyline of the corners has no two consecutive points within the minimum gap. It starts at the first corner's arc start. |
| Shapes.SamplesFromCorners | src/utils.ts:79-93 | Every polyline point is one of the 33 samples of some corner. |
| Shapes.CornerPath | src/utils.ts:68-76 | Corner i is drawn by commands 2i and 2i+1. These are a move (corner 0) or a line to its arc start, then a curve with the vertex as control point to its arc end. |
| Shapes.RoundedPath | src/utils.ts:68-102 | The rounded outline has 2n+1 commands. Each corner is drawn in turn, and the outline closes with a line to the first arc start. |
| Shapes.RoundedPoints | src/utils.ts:79-99 | The rounded polyline starts at the first arc start and ends on its first point again. Apart from that closing point, it is separated. |
| Shapes.Octagon | src/utils.ts:19-106 | `createOctagonPoints` always gives a closed, well-formed outline: nine commands with sharp corners (radius <= 0), seventeen with rounded ones. |
| Shapes.RoundedCorners | src/utils.ts:44-76 | With a positive corner radius, curve i of the octagon has vertex i as control point. Its ends lie at distance `cornerRadius` from that vertex. |
| Shapes.RoundedShape | src/utils.ts:68-102 | In the rounded outline, the curves are exactly the odd commands. The first command is a move and the others are lines. |
| Shapes.OctagonShape | src/utils.ts:19-106 | Both branches of `createOctagonPoints` produce a well-formed closed path. The sharp one has nine points and nine commands. |
| Shapes.Arm | src/utils.ts:138-160 | An arm pairs each point with one command. It is a move to the axis top, lines to the side points, then lines to the axis bottom and back to the top. |
| Shapes.ArmShape | src/utils.ts:138-216 | Every arm shape is a well-formed closed outline. |
| Shapes.SharpHalfOctagon | src/utils.ts:138-160 | The sharp arm is seven commands: a move to the axis top, lines to vertices 1, 0, 7, 6, then lines to the axis bottom and back to the top. It is closed and well-formed. |
| Shapes.RightVertices | src/utils.ts:136-149 | The right side is vertices 1, 0, 7, 6 in that order. |
| Shapes.TopmostRight | src/utils.ts:172-183 | The search finds the first point of greatest y among those with x > 0.01. If there is none, it gives index 0 and minus infinity. |
| Shapes.ScanRightSide | src/utils.ts:185-206 | The walk takes at most one step per polyline point. Every point it picks lies right of the axis (x > -0.01). The picked points are a cyclic run of the polyline, and when the start point is right of the axis the run starts there. |
| Shapes.ArmFromPolyline | src/utils.ts:161-216 | The rounded arm is an arm shape whose side points are polyline points right of the axis. When some point has x > 0.01, the first side point is the topmost such point. |
| Shapes.RoundedHalfOctagon | src/utils.ts:161-216 | With a positive corner radius, the arm's side points come from the rounded octagon's polyline. |
| Shapes.HalfOctagon | src/utils.ts:116-219 | `createHalfOctagonPoints` always gives a closed, well-formed outline from the axis top to the axis bottom and back. With sharp corners it has exactly seven commands through vertices 1, 0, 7, 6. |
| Easing.EaseInQuad | src/CarouselGlobeLogo.tsx:31-33 | Ease-in is never negative. On [0,1] it stays in [0,1] and never runs ahead of linear time. |
| Easing.EaseOutQuad | src/CarouselGlobeLogo.tsx:35-37 | Ease-out never exceeds 1. On [0,1] it stays in [0,1] and never falls behind linear time. |
| Easing.EaseInOutQuad | src/CarouselGlobeLogo.tsx:39-41 | On [0,1], ease-in-out stays in [0,1] and is below 0.5 exactly on the first half. |
| Easing.EaseOutMirrorsEaseIn | src/CarouselGlobeLogo.tsx:31-37 | Ease-out is ease-in mirrored: out(t) = 1 - in(1 - t). |
| Easing.EaseInOutSymmetric | src/CarouselGlobeLogo.tsx:39-41 | Ease-in-out is point-symmetric about (0.5, 0.5). |
| Easing.EaseInOutMeets | src/CarouselGlobeLogo.tsx:39-41 | The two halves of ease-in-out meet at 0.5. |
| Easing.QuadEasingsEndpoints | src/CarouselGlobeLogo.tsx:27-41 | All four quadratic easings map 0 to 0 and 1 to 1. |
| Easing.EaseInUnit | src/CarouselGlobeLogo.tsx:31-33 | Ease-in maps [0,1] into [0,1] and is monotone there. |
| Easing.EaseOutUnit | src/CarouselGlobeLogo.tsx:35-37 | Ease-out maps [0,1] into [0,1] and is monotone there. |
| Easing.EaseInOutUnit | src/CarouselGlobeLogo.tsx:39-41 | Ease-in-out maps [0,1] into [0,1] and is monotone. It is below 0.5 exactly on the first half. |
| Easing.Narrow | src/CarouselGlobeLogo.tsx:63-67 | A step that misses keeps the half of the interval that still brackets the target, and halves the width. |
| Easing.Bisect | src/CarouselGlobeLogo.tsx:51-68 | The search only shrinks its interval and takes at most 20 steps. It stops early only on a hit. |
| Easing.BisectBrackets | src/CarouselGlobeLogo.tsx:51-68 | The search keeps the target bracketed. |
| Easing.BisectHit | src/CarouselGlobeLogo.tsx:55-70 | A search that stops early ends on an interval whose midpoint's x is within 1e-4 of t. The recomputed `mid` is the one that hit. |
| Easing.SearchUnitFacts | src/CarouselGlobeLogo.tsx:50-70 | The search from [0,1] ends bracketing t, and on a hit its midpoint's x is within the tolerance of t. |
| Easing.CubicBezier | src/CarouselGlobeLogo.tsx:48 | At t = 0 and t = 1 the result is t itself, without any search. |
| Easing.CubicBezierMeaning | src/CarouselGlobeLogo.tsx:44-78 | Away from 0 and 1, the result is the curve's y at a parameter in [0,1] that ends the search for t. With y controls in [0,1], the result stays in [0,1]. |
| Easing.CubicBezierDiagonal | src/CarouselGlobeLogo.tsx:44-78 | A curve whose y controls equal its x controls, such as (0, 0, 1, 1), gives t at 0 and 1, and a value within 1e-4 of t whenever the search stops early. |
| Easing.BezierRange | src/CarouselGlobeLogo.tsx:72-74 | With control values in [0,1], the bezier coordinate at a parameter in [0,1] lies in [0,1]. |
| Easing.BisectLoop | src/CarouselGlobeLogo.tsx:50-68 | The source's loop ends on the interval of the recursive search. It has taken at most 20 halvings, and its width is 2^-steps. |
| Easing.CubicBezierLoop | src/CarouselGlobeLogo.tsx:44-78 | The loop version of `cubicBezier` agrees with the recursive reference on every input. |
| Easing.GetEasing | src/CarouselGlobeLogo.tsx:81-94 | 'linear', 'ease-in' and 'ease-out' select their own curves. The custom curve is chosen exactly for 'custom' with control values. Ease-in-out is chosen for its own name, for unknown names, and for 'custom' without control values. |
| Easing.EasingUnit | src/CarouselGlobeLogo.tsx:81-94 | Every easing fixes 0 and 1, whatever its control values. It maps [0,1] into [0,1] when it is not a custom curve or its y controls lie in [0,1]. |
| Easing.SelectedEasingUnit | src/CarouselGlobeLogo.tsx:81-94 | Whatever name and control values are selected, the chosen easing fixes 0 and 1. It maps [0,1] into [0,1] unless it is a custom curve with a y control outside [0,1], which can overshoot. |
| Carousel.StepAngle | src/CarouselGlobeLogo.tsx:195 | The step is +60 degrees to the right and -60 to the left. |
| Carousel.Wrap | src/CarouselGlobeLogo.tsx:223-230 | Angles at or past +90 jump to -90, and at or past -90 to +90. Others stay, so the result is in [-90, 90]. |
| Carousel.WrapExample | src/CarouselGlobeLogo.tsx:214-230 | An arm at 70 stepping right wraps to -90. |
| Carousel.Advance | src/CarouselGlobeLogo.tsx:216-233 | A completed step moves every arm by the step and wraps it into [-90, 90]. |
| Carousel.StartArms | src/CarouselGlobeLogo.tsx:249-264 | The first arm starts hidden on the side opposite the direction of travel (-90 going right, +90 going left). Each next arm is one step further along. |
| Carousel.OnPositionsPermutes | src/CarouselGlobeLogo.tsx:140-144 | Arms on distinct start positions are a permutation of the start positions. |
| Carousel.AdvanceKeepsPositions | src/CarouselGlobeLogo.tsx:214-233 | A completed step maps the start positions onto themselves, one to one. |
| Carousel.StepMovesAlong | src/CarouselGlobeLogo.tsx:216-230 | A step with wraparound takes each start position to a start position, and distinct ones to distinct ones. |
| Carousel.Tick | src/CarouselGlobeLogo.tsx:172-237 | Nothing changes when not playing. Angles are shown exactly on moving frames (playing and not pausing). The arms either stay or advance by one step, and they advance only when progress resets and a pause starts. |
| Carousel.Shown | src/CarouselGlobeLogo.tsx:190-211 | One angle per arm. At eased progress 0 each arm shows its base angle, and at 1 its base angle plus the step. |
| Carousel.TickCases | src/CarouselGlobeLogo.tsx:172-237 | Covers the frame step case by case: nothing when not playing; counting the pause and ending it at the pause duration; clamped progress; each shown angle is its base angle plus the step times the eased clamped progress; on completion, the arms advance and a pause starts. |
| Carousel.TickPreservesValid | src/CarouselGlobeLogo.tsx:172-237 | A frame keeps progress in [0,1), progress at 0 while paused, a non-negative pause timer and the arms on the start positions. |
| Carousel.ShownAnglesInRange | src/CarouselGlobeLogo.tsx:190-211 | With an easing bounded in [0,1], every shown arm angle lies in [-90, 90]. |
| Carousel.RunPreservesValid | src/CarouselGlobeLogo.tsx:172-237 | Any sequence of frames keeps the state valid. |
| Carousel.RunPermutesArms | src/CarouselGlobeLogo.tsx:214-233 | After any sequence of frames, the base angles are a permutation of the start positions. |
| Carousel.StopReset | src/CarouselGlobeLogo.tsx:240-246 | Stopping clears progress, the pause and its timer, and keeps the arms. |
| Carousel.DirectionReset | src/CarouselGlobeLogo.tsx:249-268 | A change of direction puts the arms on that direction's positions, with the first arm on the hidden side. It clears progress and the pause. |
| Carousel.ResetsValid | src/CarouselGlobeLogo.tsx:239-268 | Both resets give a valid state. |
| Rotation.AxisStep | src/GlobeLogo.tsx:51-67 | A manual time sets the angle to -rate·m. Otherwise, playing decreases it by rate·delta, and idle leaves it. |
| Rotation.PlayAxisTurns | src/GlobeLogo.tsx:60-65 | Playing frames turns an axis by the rate times the total frame time. |
| Rotation.PlayMatchesManual | src/GlobeLogo.tsx:55-65 | From rest, playing frames of times d1..dn gives the angle of manual time d1+...+dn. |
| Rotation.Step | src/GlobeLogo.tsx:112-127 | A group's step is the axis step on each of x, y, z with that axis's spin. |
| Rotation.ManualOverrides | src/GlobeLogo.tsx:117-120 | With a manual time, the result ignores playing, the previous rotation and the frame time. |
| Rotation.PlayByAxis | src/GlobeLogo.tsx:121-125 | Playing a group is playing each axis. |
| Rotation.GroupPlayMatchesManual | src/GlobeLogo.tsx:116-125 | For a group at rest, playing agrees with manual time at the total frame time. |
| Rotation.GlobeStep | src/GlobeLogo.tsx:51-127 | With a manual time, the whole globe is at that time's rotations, whatever it was before. Idle frames change nothing. |
| Rotation.GlobePlayByGroup | src/GlobeLogo.tsx:129-165 | Playing the globe is playing its group and its three rings separately. |
| Rotation.GlobePlayMatchesManual | src/GlobeLogo.tsx:51-127 | For the whole globe at rest, playing agrees with manual time at the total frame time. |
| Rotation.RingColor | src/GlobeLogo.tsx:133 | A ring is drawn in its own colour or in the override colour. |
| Rotation.RingColorOverride | src/GlobeLogo.tsx:133-158 | The override is used exactly when it is a non-empty string. |
| SvgExport.StrokeColor | src/SVGExporter.tsx:26 | The colour is `#` plus the material's hex digits, or `#ffffff` without one. |
| SvgExport.StrokeWidth | src/SVGExporter.tsx:28 | A material's non-zero line width is used as is. Without a material or width, or with width 0, the width is 1. |
| SvgExport.Collect | src/SVGExporter.tsx:21-38 | At most one line per object. |
| SvgExport.CollectAppend | src/SVGExporter.tsx:21-38 | Collecting keeps traversal order: collecting a + b is collecting a, then b. |
| SvgExport.CollectEmpty | src/SVGExporter.tsx:21-43 | Nothing is collected exactly when no object has original points or path. Every line comes from such an object. |
| SvgExport.ToPixel | src/SVGExporter.tsx:52-58 | On a canvas of non-zero size, the reverse mapping recovers the device coordinates. Device coordinates in [-1,1] land inside the canvas. |
| SvgExport.PixelCorners | src/SVGExporter.tsx:52-58 | The device centre maps to the canvas centre, (-1, 1) to (0, 0), and (1, -1) to (width, height). |
| SvgExport.PixelRoundTrip | src/SVGExporter.tsx:52-58 | On a canvas of non-zero size, the pixel mapping is inverted by its reverse mapping, in both directions. |
| SvgExport.CommandD | src/SVGExporter.tsx:64-77 | A command's text is empty exactly when the command is unknown. Otherwise it starts with its letter M, L or Q and a space, and ends in a space. |
| SvgExport.PathD | src/SVGExporter.tsx:62-78 | No commands give empty text, and a well-formed outline's text starts with `M `. |
| SvgExport.PathDAppend | src/SVGExporter.tsx:62-78 | The `d` text of a path is the texts of its parts in order. |
| SvgExport.CommandShape | src/SVGExporter.tsx:64-77 | A move, line or curve is written as its letter, its points (control point first) and a trailing space. An unknown command writes nothing. |
| SvgExport.PathDEmpty | src/SVGExporter.tsx:62-78 | A path's text is empty exactly when all its commands are unknown. |
| SvgExport.JoinLength | src/SVGExporter.tsx:88 | Joining n strings puts exactly n-1 separators between them. |
| SvgExport.JoinSnoc | src/SVGExporter.tsx:88 | Joining one more string appends the separator and that string. |
| SvgExport.PointsD | src/SVGExporter.tsx:79-89 | The polyline fallback text starts with `M `. |
| SvgExport.PointsDSnoc | src/SVGExporter.tsx:79-89 | One point gives `M p`. Each further point adds ` L p` at the end, so n points give `M p0 L p1 ... L pn-1`. |
| SvgExport.LineD | src/SVGExporter.tsx:62-89 | A line with a path (even an empty one) uses the path's text. Otherwise, it uses the points' text. |
| SvgExport.PointsAlwaysDrawn | src/SVGExporter.tsx:79-93 | A line drawn from points always gets an element. |
| SvgExport.TrimSlice | src/SVGExporter.tsx:103 | `trim` returns a slice of the input, and everything it cuts off is white space. |
| SvgExport.TrimClean | src/SVGExporter.tsx:103 | The trimmed text has no white space at either end, so trimming is idempotent. |
| SvgExport.Elements | src/SVGExporter.tsx:91-93 | There is at most one element per line. |
| SvgExport.ElementsAll | src/SVGExporter.tsx:48-94 | Every line gets an element exactly when every line has non-empty text. |
| SvgExport.Background | src/SVGExporter.tsx:97 | A given non-empty colour is used as is. Without one, or with the empty string, the background is `black`. |
| SvgExport.GenerateSvg | src/SVGExporter.tsx:40-105 | The result is empty exactly when no line is collected. Otherwise the trimmed document starts with `<svg`. |
| SvgExport.GenerateSvgEmpty | src/SVGExporter.tsx:40-105 | The result is empty exactly when no object is exportable. Otherwise it starts with `<svg`. |
| SvgExport.TrimSvg | src/SVGExporter.tsx:98-103 | Trimming the document drops its leading newline and keeps the `<svg` opening. |
| SvgExport.OnTrigger | src/SVGExporter.tsx:112-123 | Trigger 0 and a repeated trigger do nothing. Otherwise the trigger is recorded, and a non-empty document goes to the callback if there is one, or is downloaded. |
| SvgExport.OnTriggerIdempotent | src/SVGExporter.tsx:113-114 | Handling the same trigger twice has no second effect. |
| FrameExport.Digits | src/App.tsx:602 | The decimal text of an index is non-empty, all digits, and without leading zeros. |
| FrameExport.ValueOfDigits | src/App.tsx:602 | The decimal text of an index denotes that index. |
| FrameExport.PadStart | src/App.tsx:602 | Padding gives the longer of the text and the width, fills the front with the pad, and keeps the whole text at the end. |
| FrameExport.FrameFileName | src/App.tsx:602 | Every frame name is at least 14 characters: `frame_`, the digits, then `.svg`. |
| FrameExport.FrameFileNameShape | src/App.tsx:602 | A name is `frame_`, at least four digits ending in the whole decimal index, and `.svg`. |
| FrameExport.FrameFileNameRoundTrip | src/App.tsx:602 | Reading the index back from a frame's file name gives the index. |
| FrameExport.FrameFileNamesDistinct | src/App.tsx:602-603 | Two frames share a file name exactly when they are the same frame. |
| FrameExport.Speed | src/App.tsx:619 | The speed is never zero, and it is positive for a non-negative global speed. |
| FrameExport.Dt | src/App.tsx:619-621 | The frame step is positive for a non-negative global speed. |
| FrameExport.FrameTiming | src/App.tsx:619-622 | Frame times start at 0, strictly increase, and stay below one cycle. The frame after the last would land exactly on the cycle. |
| FrameExport.CycleIsWholeTurns | src/App.tsx:619-620 | Over one cycle, an axis with spin s turns by exactly s full turns. |
| FrameExport.StartExport | src/App.tsx:581-596 | Starting is ignored while exporting, and a cancelled picker changes nothing. Otherwise the export starts at frame 0, paused, at manual time 0. |
| FrameExport.Capture | src/App.tsx:598-629 | A file is written exactly when exporting with a directory and the write succeeds, and it is the current frame's name. The frame count never changes. From a running export, a successful capture leaves it running or finished. |
| FrameExport.CaptureCases | src/App.tsx:598-629 | A capture is a no-op unless exporting with a directory. A failed write stops the export and clears manual time without resuming playback. A successful write names the file after the frame, then either finishes (last frame) or moves to the next frame at its time. |
| FrameExport.DriveRunning | src/App.tsx:610-623 | From any running state, successful writes write each remaining frame once, in order, and then finish the export. |
| FrameExport.ExportWritesAllFrames | src/App.tsx:581-629 | A whole export writes `frame_0000.svg`, `frame_0001.svg`, ... once each in order. It then leaves the editor playing, with no manual time and no directory. |
| FrameExport.ExporterEffect | src/App.tsx:93-105 | With export off, the memo resets to -1 and nothing is captured. With it on, a capture happens exactly when the frame differs from the memo, and the memo becomes the frame. |
| FrameExport.CapturedOncePerFrame | src/App.tsx:93-103 | While the frame index only moves forward, each frame index is captured exactly once: captures strictly increase and are exactly the indices seen, apart from the memo. |
| FrameExport.Clamp01 | src/App.tsx:429-430 | Clamping lands in [0,1] and leaves values in [0,1] alone. |
| FrameExport.FromSvg | src/App.tsx:428-431 | Both outputs of `fromSvg` lie in [0,1]. |
| FrameExport.EditorRoundTrip | src/App.tsx:417-431 | `fromSvg` undoes `toSvg` on the unit square, and `toSvg` undoes `fromSvg` on the drawn square of the view box. |

## Left out

- Rendering: React components, three.js objects, `@react-three/*` lines and groups, clipping planes, orbit controls and the camera reset. These are display glue with no logic of their own.
- UI panels, presets, sliders, icons, the preview modal and the preview download (`Date.now` file name, Blob and URL handling). These are I/O.
- Floating point: all arithmetic is on reals. NaN, infinities, rounding and `toFixed(2)` are not modelled; formatting is a parameter.
- `Math.cos`, `Math.sin`, `Vector3.normalize`, `applyMatrix4` and `project` are parameters. Geometric facts that depend on their values, such as the octagon being regular or the half-octagon walk finding exactly the right-hand arc, are not proved.
- The scene tree is flattened to the sequence the traversal visits. The world transform of an object is an index passed to the projection.
- File System Access API: the directory picker, file handles, writable streams, `await` ordering and `alert`. A write is a success flag, and the picker is a flag for whether a directory was picked.
- React state batching and staleness between `setState` calls. Each frame and each callback is one sequential state transition.
- `toRad`, ring offsets and orientations only place objects in the scene and are not modelled.
- The `console` messages are not modelled.
- Easing.CubicBezier: closeness to t for a curve whose y controls equal its x controls is proved only when the search stops early (Easing.CubicBezierDiagonal). After twenty steps without a hit, the bound would need the monotonicity of the x polynomial, which is not proved.
- Easing.SelectedEasingUnit: the range [0,1] is promised only when a custom curve's y controls lie in [0,1]. The number inputs accept any value, and a y control outside [0,1] makes the curve overshoot, so no stronger statement holds.
- Carousel.Tick: requires a positive animation duration and a non-negative frame time. A zero duration would make the source divide by zero.
- FrameExport.FrameTiming: stated for a non-negative global speed, which is the slider's range. A negative speed gives negative frame times in the source.
- FrameExport.DriveRunning: assumes the global speed does not change during an export.
- FrameExport.CapturedOncePerFrame: stated for a non-decreasing frame index, which is what the export state machine produces. A capture guard that saw the index go back would capture again.

/** The frame-export sequencer of the editor: the file name of each frame,
    the export state machine that writes one frame per capture and steps the
    manual time through one full rotation cycle, the once-per-frame capture
    guard, and the coordinate mapping of the bezier curve editor. The file
    system is reduced to a success flag per write and to whether a directory
    was picked. */
module FrameExport {
  import opened Common
  import Rotation

  // ---------------------------------------------------------------------------
  // Frame file names
  // ---------------------------------------------------------------------------

  predicate IsDigit(c: char) {
    '0' <= c <= '9'
  }

  function DigitChar(d: nat): (c: char)
    requires d < 10
    ensures IsDigit(c)
  {
    "0123456789"[d]
  }

  function DigitValue(c: char): (d: nat)
    requires IsDigit(c)
    ensures d < 10
  {
    (c as int - '0' as int) as nat
  }

  /** The decimal text of a number, as `Number.prototype.toString` writes a
      non-negative integer: no sign and no leading zeros. */
  function Digits(n: nat): (r: string)
    ensures |r| >= 1 && forall k :: 0 <= k < |r| ==> IsDigit(r[k])
    ensures r[0] == '0' ==> n == 0
    decreases n
  {
    if n < 10 then [DigitChar(n)] else Digits(n / 10) + [DigitChar(n % 10)]
  }

  predicate AllDigits(s: string) {
    forall k :: 0 <= k < |s| ==> IsDigit(s[k])
  }

  /** The number a string of digits denotes; leading zeros count for
      nothing. */
  function Value(s: string): nat
    requires AllDigits(s)
    decreases |s|
  {
    if |s| == 0 then 0 else Value(s[..|s| - 1]) * 10 + DigitValue(s[|s| - 1])
  }

  lemma {:induction false} ValueOfDigits(n: nat)
    ensures Value(Digits(n)) == n
    decreases n
  {
    var r := Digits(n);
    if n < 10 {
      assert r[..0] == "";
    } else {
      ValueOfDigits(n / 10);
      assert r[..|r| - 1] == Digits(n / 10);
      assert DigitValue(DigitChar(n % 10)) == n % 10 by {
        DigitRoundTrip(n % 10);
      }
    }
  }

  lemma DigitRoundTrip(d: nat)
    requires d < 10
    ensures DigitValue(DigitChar(d)) == d
  {
    var s := "0123456789";
    assert s[0] == '0' && s[1] == '1' && s[2] == '2' && s[3] == '3' && s[4] == '4';
    assert s[5] == '5' && s[6] == '6' && s[7] == '7' && s[8] == '8' && s[9] == '9';
  }

  /** Zeros in front do not change the value. */
  lemma {:induction false} ValueZeros(z: string, s: string)
    requires forall k :: 0 <= k < |z| ==> z[k] == '0'
    requires AllDigits(s)
    ensures AllDigits(z + s) && Value(z + s) == Value(s)
    decreases |s|
  {
    if |s| == 0 {
      assert z + s == z;
      Zeros(z);
    } else {
      var t := z + s;
      assert t[..|t| - 1] == z + s[..|s| - 1];
      ValueZeros(z, s[..|s| - 1]);
    }
  }

  lemma {:induction false} Zeros(z: string)
    requires forall k :: 0 <= k < |z| ==> z[k] == '0'
    ensures AllDigits(z) && Value(z) == 0
    decreases |z|
  {
    if |z| > 0 {
      Zeros(z[..|z| - 1]);
    }
  }

  /** `s.padStart(width, c)` for a one-character pad: copies of `c` in front
      up to the width, and `s` itself, never cut, when it is already that
      long. */
  function PadStart(s: string, width: nat, c: char): (r: string)
    ensures |r| == if |s| >= width then |s| else width
    ensures r[|r| - |s|..] == s
    ensures forall k :: 0 <= k < |r| - |s| ==> r[k] == c
  {
    if |s| >= width then s else seq(width - |s|, _ => c) + s
  }

  /** `frame_NNNN.svg`: the frame index in decimal, padded with zeros to at
      least four digits. */
  function FrameFileName(i: nat): (name: string)
    ensures |name| >= 14 && name[..6] == "frame_" && name[|name| - 4..] == ".svg"
  {
    "frame_" + PadStart(Digits(i), 4, '0') + ".svg"
  }

  /** Reads a frame index back from a file name, or nothing when the name is
      not of the form `frame_<digits>.svg`. */
  function ParseFrameFileName(name: string): Option<nat> {
    if |name| >= 10 && name[..6] == "frame_" && name[|name| - 4..] == ".svg"
       && AllDigits(name[6..|name| - 4])
    then Some(Value(name[6..|name| - 4]))
    else None
  }

  /** The name holds the whole decimal index after its padding, so it is
      never truncated, and it is at least four digits long. */
  lemma FrameFileNameShape(i: nat)
    ensures var name := FrameFileName(i);
      var digits := |Digits(i)|;
      var width := if digits >= 4 then digits else 4;
      && |name| == 10 + width
      && name[..6] == "frame_" && name[|name| - 4..] == ".svg"
      && name[6 + width - digits..6 + width] == Digits(i)
  {
    var d := Digits(i);
    var p := PadStart(d, 4, '0');
    var name := "frame_" + p + ".svg";
    assert FrameFileName(i) == name;
    assert name[6..6 + |p|] == p;
    assert p[|p| - |d|..] == d;
    assert name[6 + |p| - |d|..6 + |p|] == p[|p| - |d|..];
  }

  /** Reading the index back from a frame's file name gives the index. */
  lemma FrameFileNameRoundTrip(i: nat)
    ensures ParseFrameFileName(FrameFileName(i)) == Some(i)
  {
    var d := Digits(i);
    var p := PadStart(d, 4, '0');
    var z := p[..|p| - |d|];
    assert p == z + d;
    ValueZeros(z, d);
    ValueOfDigits(i);
    ParseFramed(p);
  }

  /** Any digits wrapped as a frame file name are read back. */
  lemma ParseFramed(p: string)
    requires |p| >= 4 && AllDigits(p)
    ensures ParseFrameFileName("frame_" + p + ".svg") == Some(Value(p))
  {
    var name := "frame_" + p + ".svg";
    assert name[..6] == "frame_";
    assert name[|name| - 4..] == ".svg";
    assert name[6..|name| - 4] == p;
  }

  /** Different frames are written to different files. */
  lemma FrameFileNamesDistinct(i: nat, j: nat)
    ensures FrameFileName(i) == FrameFileName(j) <==> i == j
  {
    if FrameFileName(i) == FrameFileName(j) {
      FrameFileNameRoundTrip(i);
      FrameFileNameRoundTrip(j);
    }
  }

  // ---------------------------------------------------------------------------
  // Frame timing
  // ---------------------------------------------------------------------------

  /** `(0.5 * globalSpeed) || 0.001`: half the global speed, or 0.001 when
      that is zero. */
  function Speed(globalSpeed: real): (r: real)
    ensures r != 0.0
    ensures globalSpeed >= 0.0 ==> r > 0.0
  {
    if 0.5 * globalSpeed == 0.0 then 0.001 else 0.5 * globalSpeed
  }

  /** The time of one full turn at the given speed. */
  function Cycle(globalSpeed: real): real {
    2.0 * Pi / Speed(globalSpeed)
  }

  /** The manual-time step between consecutive frames: one cycle divided
      into `total` frames. */
  function Dt(globalSpeed: real, total: nat): (r: real)
    requires total > 0
    ensures globalSpeed >= 0.0 ==> r > 0.0
  {
    Cycle(globalSpeed) / total as real
  }

  /** The manual time of frame k. */
  function FrameTime(globalSpeed: real, total: nat, k: nat): real
    requires total > 0
  {
    k as real * Dt(globalSpeed, total)
  }

  /** For a non-negative speed the frame times start at zero, strictly
      increase, stay below one cycle for the frames that exist, and the
      frame after the last one would land exactly on the cycle, so the
      exported sequence loops without a seam. */
  lemma FrameTiming(globalSpeed: real, total: nat, j: nat, k: nat)
    requires globalSpeed >= 0.0 && total > 0
    ensures FrameTime(globalSpeed, total, 0) == 0.0
    ensures j < k ==> FrameTime(globalSpeed, total, j) < FrameTime(globalSpeed, total, k)
    ensures k < total ==> 0.0 <= FrameTime(globalSpeed, total, k) < Cycle(globalSpeed)
    ensures FrameTime(globalSpeed, total, total) == Cycle(globalSpeed)
  {
    var dt := Dt(globalSpeed, total);
    var c := Cycle(globalSpeed);
    assert dt * total as real == c;
    if j < k {
      assert (k - j) as real * dt > 0.0;
    }
    if k < total {
      assert (total - k) as real * dt > 0.0;
    }
  }

  /** Over one cycle an axis with spin multiplier `spin` turns by `spin`
      full turns (when the speed is not zero), so every ring with whole
      spins is back where it started. */
  lemma CycleIsWholeTurns(globalSpeed: real, spin: real)
    requires globalSpeed > 0.0
    ensures Rotation.ManualAngle(Rotation.Rate(globalSpeed, spin), Cycle(globalSpeed)) == -2.0 * Pi * spin
  {
    var s := 0.5 * globalSpeed;
    assert Speed(globalSpeed) == s;
    assert s * (2.0 * Pi / s) == 2.0 * Pi;
  }

  // ---------------------------------------------------------------------------
  // The export state machine
  // ---------------------------------------------------------------------------

  /** The editor state the export touches: whether an export runs, whether
      a target directory is held, the frame being written and the number of
      frames, whether the animation plays, and the manual time. */
  datatype Export = Export(
    exporting: bool, hasDir: bool, current: nat, total: nat, playing: bool, manualTime: Option<real>)

  /** `handleExportFrames`: ignored while exporting; when a directory was
      picked, an export of `frameCount` frames starts at frame 0 with the
      animation paused at manual time 0; when the picker was cancelled
      nothing changes. */
  function StartExport(s: Export, frameCount: nat, picked: bool): (r: Export)
    ensures s.exporting || !picked ==> r == s
    ensures !s.exporting && picked ==>
      r.exporting && r.hasDir && r.current == 0 && r.total == frameCount && !r.playing && r.manualTime == Some(0.0)
  {
    if s.exporting || !picked then s
    else Export(true, true, 0, frameCount, false, Some(0.0))
  }

  /** `handleFrameCapture` with the outcome of the write: the new state and
      the name of the file written, if any. */
  function Capture(s: Export, globalSpeed: real, writeOk: bool): (r: (Export, Option<string>))
    ensures r.1.Some? <==> s.exporting && s.hasDir && writeOk
    ensures r.1.Some? ==> r.1.value == FrameFileName(s.current)
    ensures r.0.total == s.total
    ensures Running(s, globalSpeed) && writeOk ==> Running(r.0, globalSpeed) || Finished(r.0)
  {
    if !s.exporting || !s.hasDir then (s, None)
    else if !writeOk then (s.(exporting := false, manualTime := None), None)
    else
      var next := s.current + 1;
      var name := FrameFileName(s.current);
      if next >= s.total then
        (s.(exporting := false, manualTime := None, hasDir := false, playing := true), Some(name))
      else
        (s.(current := next, manualTime := Some(FrameTime(globalSpeed, s.total, next))), Some(name))
  }

  /** The cases of a capture: a no-op unless exporting with a directory; a
      failed write stops the export and clears the manual time but does not
      resume playback; a successful write of the last frame ends the export
      and resumes playback; any other successful write moves to the next
      frame and its manual time. */
  lemma CaptureCases(s: Export, globalSpeed: real, writeOk: bool)
    ensures var (r, written) := Capture(s, globalSpeed, writeOk);
      && (!s.exporting || !s.hasDir ==> r == s && written.None?)
      && (s.exporting && s.hasDir && !writeOk ==>
            !r.exporting && r.manualTime.None? && written.None?
            && r.playing == s.playing && r.hasDir && r.current == s.current)
      && (s.exporting && s.hasDir && writeOk ==> written == Some(FrameFileName(s.current)))
      && (s.exporting && s.hasDir && writeOk && s.current + 1 >= s.total ==>
            !r.exporting && !r.hasDir && r.playing && r.manualTime.None?)
      && (s.exporting && s.hasDir && writeOk && s.current + 1 < s.total ==>
            r.exporting && r.hasDir && r.current == s.current + 1 && r.total == s.total
            && r.playing == s.playing
            && r.manualTime == Some(FrameTime(globalSpeed, s.total, s.current + 1)))
  {
  }

  /** The invariant of a running export at a fixed speed: a directory is
      held, playback is paused, and the manual time is that of the current
      frame, which is frame 0 or a frame that exists. */
  predicate Running(s: Export, globalSpeed: real) {
    && s.exporting && s.hasDir && !s.playing
    && ((s.current == 0 && s.manualTime == Some(0.0))
        || (0 < s.current < s.total && s.manualTime == Some(FrameTime(globalSpeed, s.total, s.current))))
  }

  /** A finished export: nothing held, playing again, no manual time. */
  predicate Finished(s: Export) {
    !s.exporting && !s.hasDir && s.playing && s.manualTime.None?
  }

  /** Successful captures, `n` of them, and the names written. */
  function Drive(s: Export, globalSpeed: real, n: nat): (r: (Export, seq<string>))
    decreases n
  {
    if n == 0 then (s, [])
    else
      var (t, written) := Capture(s, globalSpeed, true);
      var (u, names) := Drive(t, globalSpeed, n - 1);
      ((u), (if written.Some? then [written.value] else []) + names)
  }

  /** Number of captures left in a running export: at least one, as frame 0
      is written even when the frame count is zero. */
  function Remaining(s: Export): nat {
    if s.current < s.total then s.total - s.current else 1
  }

  /** The names of consecutive frames from `first` on. */
  predicate NamesFrom(names: seq<string>, first: nat) {
    forall k :: 0 <= k < |names| ==> names[k] == FrameFileName(first + k)
  }

  lemma NamesCons(names: seq<string>, first: nat)
    requires NamesFrom(names, first + 1)
    ensures NamesFrom([FrameFileName(first)] + names, first)
  {
    var all := [FrameFileName(first)] + names;
    forall k | 0 <= k < |all| ensures all[k] == FrameFileName(first + k) {
      if k > 0 {
        assert all[k] == names[k - 1];
      }
    }
  }

  /** From any running state, successful writes write the remaining frames
      in order, each under its own name, and then the export is finished. */
  lemma {:induction false} DriveRunning(s: Export, globalSpeed: real)
    requires Running(s, globalSpeed)
    ensures Finished(Drive(s, globalSpeed, Remaining(s)).0)
    ensures |Drive(s, globalSpeed, Remaining(s)).1| == Remaining(s)
    ensures NamesFrom(Drive(s, globalSpeed, Remaining(s)).1, s.current)
    decreases Remaining(s)
  {
    var t := Capture(s, globalSpeed, true).0;
    var n := Remaining(s);
    DriveStep(s, globalSpeed, n);
    var d := Drive(t, globalSpeed, n - 1);
    assert Drive(s, globalSpeed, n) == (d.0, [FrameFileName(s.current)] + d.1);
    if s.current + 1 >= s.total {
      assert n == 1 && Finished(t);
      assert d == (t, []);
      NamesCons([], s.current);
    } else {
      CaptureNext(s, globalSpeed);
      DriveRunning(t, globalSpeed);
      assert Drive(t, globalSpeed, Remaining(t)) == d;
      assert Finished(d.0) && |d.1| == n - 1;
      NamesCons(d.1, s.current);
    }
  }

  /** One successful capture of a running export writes the current frame's
      file, then the rest of the drive follows. */
  lemma DriveStep(s: Export, globalSpeed: real, n: nat)
    requires n > 0 && s.exporting && s.hasDir
    ensures var t := Capture(s, globalSpeed, true).0;
      Drive(s, globalSpeed, n) == (Drive(t, globalSpeed, n - 1).0, [FrameFileName(s.current)] + Drive(t, globalSpeed, n - 1).1)
  {
  }

  /** A successful capture before the last frame keeps the export running on
      the next frame. */
  lemma CaptureNext(s: Export, globalSpeed: real)
    requires Running(s, globalSpeed) && s.current + 1 < s.total
    ensures var t := Capture(s, globalSpeed, true).0;
      Running(t, globalSpeed) && t.current == s.current + 1 && Remaining(t) == Remaining(s) - 1
  {
  }

  /** A whole export: after starting with `frameCount` frames, as many
      successful writes as frames (one when the count is zero) write
      `frame_0000.svg`, `frame_0001.svg`, ... in order and leave the editor
      playing with nothing held. */
  lemma ExportWritesAllFrames(s: Export, globalSpeed: real, frameCount: nat)
    requires !s.exporting
    ensures var start := StartExport(s, frameCount, true);
      var n := if frameCount == 0 then 1 else frameCount;
      var (r, names) := Drive(start, globalSpeed, n);
      && Finished(r)
      && |names| == n
      && forall k :: 0 <= k < n ==> names[k] == FrameFileName(k)
  {
    var start := StartExport(s, frameCount, true);
    assert Running(start, globalSpeed);
    DriveRunning(start, globalSpeed);
    assert Remaining(start) == if frameCount == 0 then 1 else frameCount;
  }

  // ---------------------------------------------------------------------------
  // The capture guard of the frame exporter
  // ---------------------------------------------------------------------------

  /** One run of the frame exporter's effect: the new memo of the last
      captured frame and whether a capture happens. Export off resets the
      memo to -1; the frame already captured is not captured again. */
  function ExporterEffect(last: int, exporting: bool, frameIndex: nat): (r: (int, bool))
    ensures !exporting ==> r == (-1, false)
    ensures exporting ==> (r.1 <==> frameIndex != last)
    ensures exporting ==> r.0 == frameIndex
  {
    if !exporting then (-1, false)
    else if frameIndex == last then (last, false)
    else (frameIndex, true)
  }

  /** The frames captured when the effect runs with export on for the given
      frame indices in turn. */
  function Captured(last: int, frames: seq<nat>): seq<nat>
    decreases |frames|
  {
    if |frames| == 0 then []
    else
      var (last', captured) := ExporterEffect(last, true, frames[0]);
      (if captured then [frames[0]] else []) + Captured(last', frames[1..])
  }

  predicate NonDecreasing(xs: seq<nat>) {
    forall i, j :: 0 <= i < j < |xs| ==> xs[i] <= xs[j]
  }

  predicate StrictlyIncreasing(xs: seq<nat>) {
    forall i, j :: 0 <= i < j < |xs| ==> xs[i] < xs[j]
  }

  /** While export stays on and the frame index only moves forward, each
      frame index is captured exactly once: the captures strictly increase,
      and they are exactly the indices seen apart from the one already in
      the memo. */
  lemma CapturedOncePerFrame(last: int, frames: seq<nat>)
    requires NonDecreasing(frames)
    requires |frames| == 0 || last <= frames[0]
    ensures StrictlyIncreasing(Captured(last, frames))
    ensures forall f :: f in Captured(last, frames) <==> f in frames && f != last
  {
    CapturedIncreasing(last, frames);
    CapturedMembers(last, frames);
  }

  /** The one step of the guard over a non-empty run of frames. */
  lemma CapturedCons(last: int, frames: seq<nat>)
    requires |frames| > 0
    ensures Captured(last, frames)
         == (if frames[0] != last then [frames[0]] else []) + Captured(frames[0], frames[1..])
  {
  }

  lemma {:induction false} CapturedIncreasing(last: int, frames: seq<nat>)
    requires NonDecreasing(frames)
    requires |frames| == 0 || last <= frames[0]
    ensures StrictlyIncreasing(Captured(last, frames))
    ensures |Captured(last, frames)| > 0 ==> Captured(last, frames)[0] > last
    decreases |frames|
  {
    if |frames| > 0 {
      var rest := frames[1..];
      var f := frames[0];
      assert NonDecreasing(rest);
      CapturedIncreasing(f, rest);
      CapturedCons(last, frames);
      var tail := Captured(f, rest);
      if f != last {
        var all := [f] + tail;
        forall i, j | 0 <= i < j < |all| ensures all[i] < all[j] {
          assert all[j] == tail[j - 1];
          if i > 0 {
            assert all[i] == tail[i - 1];
          } else {
            assert tail[j - 1] >= tail[0];
          }
        }
      }
    }
  }

  lemma {:induction false} CapturedMembers(last: int, frames: seq<nat>)
    requires NonDecreasing(frames)
    requires |frames| == 0 || last <= frames[0]
    ensures forall g :: g in Captured(last, frames) <==> g in frames && g != last
    decreases |frames|
  {
    if |frames| > 0 {
      var rest := frames[1..];
      var f := frames[0];
      assert NonDecreasing(rest);
      CapturedMembers(f, rest);
      CapturedCons(last, frames);
      assert frames == [f] + rest;
      assert forall g :: g in rest ==> g >= f;
    }
  }

  // ---------------------------------------------------------------------------
  // The bezier curve editor
  // ---------------------------------------------------------------------------

  /** The editor's view box is 160 units with a padding of 16, leaving 128
      for the unit square. */
  const EditorSize: real := 160.0
  const Padding: real := 16.0
  const InnerSize: real := EditorSize - 2.0 * Padding

  function Clamp01(v: real): (r: real)
    ensures 0.0 <= r <= 1.0
    ensures 0.0 <= v <= 1.0 ==> r == v
    ensures v < 0.0 ==> r == 0.0
    ensures v > 1.0 ==> r == 1.0
  {
    if v < 0.0 then 0.0 else if v > 1.0 then 1.0 else v
  }

  /** `toSvg`: bezier coordinates to view-box coordinates, y flipped. */
  function ToSvg(x: real, y: real): (real, real) {
    (Padding + x * InnerSize, Padding + (1.0 - y) * InnerSize)
  }

  /** `fromSvg`: view-box coordinates to bezier coordinates, clamped. */
  function FromSvg(sx: real, sy: real): (r: (real, real))
    ensures 0.0 <= r.0 <= 1.0 && 0.0 <= r.1 <= 1.0
  {
    (Clamp01((sx - Padding) / InnerSize), Clamp01(1.0 - (sy - Padding) / InnerSize))
  }

  /** The two mappings are inverse on the unit square and on the square of
      the view box it is drawn in: a control point in [0,1] survives a
      round trip, and a drag inside the drawn square lands where the
      pointer is. */
  lemma EditorRoundTrip(x: real, y: real, sx: real, sy: real)
    ensures 0.0 <= x <= 1.0 && 0.0 <= y <= 1.0 ==> FromSvg(ToSvg(x, y).0, ToSvg(x, y).1) == (x, y)
    ensures Padding <= sx <= Padding + InnerSize && Padding <= sy <= Padding + InnerSize ==>
      ToSvg(FromSvg(sx, sy).0, FromSvg(sx, sy).1) == (sx, sy)
  {
    assert InnerSize == 128.0;
  }
}

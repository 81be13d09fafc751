/** The pure arithmetic of the timeline panel: the zoom scale and its clamps,
    the ruler (display duration, ticks and their labels), where an overlay
    timing's bar sits on the overlay track, and the clamp applied while such a
    bar is dragged. */
module TimelineView {
  import opened Wrappers
  import opened Entities
  import opened EditorState
  import opened Text
  import EditorReducer
  import Preview
  import PlayheadClock

  // ---------- zoom scale ----------

  const DefaultPxPerSec: real := 100.0
  const MinPxPerSec: real := 20.0
  const MaxPxPerSec: real := 400.0

  ghost predicate InZoomRange(v: real) {
    MinPxPerSec <= v <= MaxPxPerSec
  }

  /** `zoomIn`: a quarter larger, capped at 400 px/s. */
  function ZoomIn(v: real): (r: real)
    ensures r <= MaxPxPerSec
    ensures r == v * 1.25 || r == MaxPxPerSec
  {
    Min(v * 1.25, MaxPxPerSec)
  }

  /** `zoomOut`: a fifth smaller, floored at 20 px/s. */
  function ZoomOut(v: real): (r: real)
    ensures r >= MinPxPerSec
    ensures r == v * 0.8 || r == MinPxPerSec
  {
    Max(v * 0.8, MinPxPerSec)
  }

  /** The scale starts inside the slider's range and both buttons keep it
      there; zooming in never shrinks and zooming out never grows a scale in
      range, and both are monotone. */
  lemma ZoomStaysInRange(v: real, w: real)
    ensures InZoomRange(DefaultPxPerSec)
    ensures InZoomRange(v) ==> InZoomRange(ZoomIn(v)) && InZoomRange(ZoomOut(v))
    ensures 0.0 <= v <= MaxPxPerSec ==> ZoomIn(v) >= v
    ensures v >= MinPxPerSec ==> ZoomOut(v) <= v
    ensures v <= w ==> ZoomIn(v) <= ZoomIn(w) && ZoomOut(v) <= ZoomOut(w)
  {
  }

  /** Away from the caps, zooming in and out are inverse steps. */
  lemma ZoomInOutInverse(v: real)
    ensures MinPxPerSec <= v <= 320.0 ==> ZoomOut(ZoomIn(v)) == v
    ensures 25.0 <= v <= MaxPxPerSec ==> ZoomIn(ZoomOut(v)) == v
  {
  }

  // ---------- ruler ----------

  const MinDisplayDuration: real := 60.0

  /** `duration || 60`, then at least 60 seconds. */
  function DisplayDuration(duration: real): (r: real)
    ensures r >= MinDisplayDuration && r >= duration
    ensures r == duration || r == MinDisplayDuration
  {
    Max(if duration == 0.0 then 60.0 else duration, MinDisplayDuration)
  }

  /** The `|| 60` fallback is subsumed by the maximum: the ruler shows the
      timeline's duration, but never less than a minute. */
  lemma DisplayFallbackRedundant(duration: real)
    ensures DisplayDuration(duration) == Max(duration, MinDisplayDuration)
  {
  }

  /** `Math.ceil`. */
  function Ceil(x: real): (r: int)
    ensures x <= r as real < x + 1.0
  {
    if x == x.Floor as real then x.Floor else x.Floor + 1
  }

  /** `padStart(2, "0")` on a number below 100. */
  function Pad2(n: nat): (r: string)
    requires n < 100
    ensures |r| == 2 && AllDigits(r) && ParseDecimal(r) == n
  {
    DecimalLength(n);
    DecimalRoundTrip(n);
    if n < 10 then
      var d := Decimal(n);
      assert ("0" + d)[..1] == "0" && ("0" + d)[1..] == d;
      "0" + d
    else Decimal(n)
  }

  /** `formatTime` on a whole second: "0.00" at zero, otherwise minutes, a
      colon and two-digit seconds. */
  function FormatTime(sec: nat): (r: string)
    ensures sec == 0 ==> r == "0.00"
  {
    if sec == 0 then "0.00" else Decimal(sec / 60) + ":" + Pad2(sec % 60)
  }

  /** Reads a ruler label back into seconds. */
  function ParseTime(text: string): Option<nat> {
    if text == "0.00" then Some(0)
    else
      var parts := SplitOn(text, ':');
      if |parts| != 2 || |parts[0]| == 0 || !AllDigits(parts[0]) || |parts[1]| != 2 || !AllDigits(parts[1]) then None
      else if ParseDecimal(parts[1]) >= 60 then None
      else Some(60 * ParseDecimal(parts[0]) + ParseDecimal(parts[1]))
  }

  /** Every label names its second: minutes before the colon, the remaining
      seconds after it. */
  lemma FormatTimeRoundTrip(sec: nat)
    ensures ParseTime(FormatTime(sec)) == Some(sec)
  {
    if sec > 0 {
      var m := Decimal(sec / 60);
      var p := Pad2(sec % 60);
      var r := FormatTime(sec);
      assert r == m + [':'] + p;
      assert r[1] != '.' by {
        if |m| == 1 { assert r[1] == ':'; } else { assert r[1] == m[1]; }
      }
      DigitsHaveNo(m, ':');
      DigitsHaveNo(p, ':');
      SplitAfterPiece(m, ':', p);
      SplitWithoutSep(p, ':');
      DecimalRoundTrip(sec / 60);
    }
  }

  /** One ruler tick: its second, its pixel offset and, on every tenth second,
      its caption. */
  datatype RulerTick = RulerTick(sec: nat, left: real, caption: Option<string>)

  function TickCount(displayDuration: real): (n: nat)
    requires displayDuration >= 0.0
    ensures (n - 1) as real >= displayDuration > (n - 2) as real
  {
    Ceil(displayDuration) + 1
  }

  function Ticks(displayDuration: real, px: real): (r: seq<RulerTick>)
    requires displayDuration >= 0.0
    ensures |r| == TickCount(displayDuration)
    ensures forall i :: 0 <= i < |r| ==> r[i].sec == i && r[i].left == i as real * px
    ensures forall i :: 0 <= i < |r| ==> (r[i].caption.Some? <==> i % 10 == 0)
  {
    seq(TickCount(displayDuration), i requires 0 <= i =>
      RulerTick(i, i as real * px, if i % 10 == 0 then Some(FormatTime(i)) else None))
  }

  /** At a positive scale each tick lies strictly right of the one before. */
  lemma TicksAdvance(displayDuration: real, px: real)
    requires displayDuration >= 0.0 && px > 0.0
    ensures var ticks := Ticks(displayDuration, px);
            forall i :: 0 < i < |ticks| ==> ticks[i - 1].left < ticks[i].left
  {
    var ticks := Ticks(displayDuration, px);
    forall i | 0 < i < |ticks|
      ensures ticks[i - 1].left < ticks[i].left
    {
      assert i as real * px == (i - 1) as real * px + px;
    }
  }

  /** Every ruler caption reads back as its own second. */
  lemma TickCaptionsRoundTrip(displayDuration: real, px: real)
    requires displayDuration >= 0.0
    ensures var ticks := Ticks(displayDuration, px);
            forall i :: 0 <= i < |ticks| && ticks[i].caption.Some? ==> ParseTime(ticks[i].caption.value) == Some(i)
  {
    var ticks := Ticks(displayDuration, px);
    forall i | 0 <= i < |ticks| && ticks[i].caption.Some?
      ensures ParseTime(ticks[i].caption.value) == Some(i)
    {
      assert ticks[i].caption.value == FormatTime(i);
      FormatTimeRoundTrip(i);
    }
  }

  /** The ruler covers the displayed duration with at least 61 ticks, the last
      at or past the end; ticks advance left to right at a positive scale, and
      each label reads back as its own second. */
  lemma RulerCoversTimeline(duration: real, px: real)
    ensures var ticks := Ticks(DisplayDuration(duration), px);
            && |ticks| >= 61
            && ticks[|ticks| - 1].sec as real >= DisplayDuration(duration)
            && (px > 0.0 ==> forall i :: 0 < i < |ticks| ==> ticks[i - 1].left < ticks[i].left)
            && forall i :: 0 <= i < |ticks| && ticks[i].caption.Some? ==> ParseTime(ticks[i].caption.value) == Some(i)
  {
    var d := DisplayDuration(duration);
    var ticks := Ticks(d, px);
    assert |ticks| == TickCount(d);
    assert ticks[|ticks| - 1].sec == |ticks| - 1;
    if px > 0.0 {
      TicksAdvance(d, px);
    }
    TickCaptionsRoundTrip(d, px);
  }

  // ---------- overlay track ----------

  /** Width of the track-name column; bars and the playhead share this offset. */
  const TrackLabelWidth: real := 128.0

  /** The bar of one timing on the overlay track, in pixels from the track's start. */
  datatype Bar = Bar(left: real, width: real, caption: string)

  /** A timing is drawn when both its overlay and its segment exist, at the
      segment's start plus the timing's offset. */
  function TrackBar(s: EditorState, t: OverlayTiming, px: real): (r: Option<Bar>)
    ensures r.Some? <==> EditorReducer.FindOverlay(s.timeline.overlays, t.overlayId).Some?
                         && Preview.SegmentById(s.timeline.segments, t.segmentId).Some?
    ensures r.Some? ==> r.value.width == t.duration * px
                        && r.value.left == (Preview.SegmentById(s.timeline.segments, t.segmentId).value.startTime + t.startTime) * px
  {
    match (EditorReducer.FindOverlay(s.timeline.overlays, t.overlayId), Preview.SegmentById(s.timeline.segments, t.segmentId))
    case (Some(o), Some(seg)) => Some(Bar((seg.startTime + t.startTime) * px, t.duration * px, o.text.GetOr("Overlay")))
    case _ => None
  }

  /** Scaling by a positive factor keeps a time inside or outside a window. */
  lemma ScaleWindow(start: real, duration: real, x: real, px: real)
    requires px > 0.0
    ensures start <= x < start + duration <==> start * px <= x * px < start * px + duration * px
  {
    assert (start + duration) * px == start * px + duration * px;
    assert start <= x <==> start * px <= x * px;
    assert x < start + duration <==> x * px < (start + duration) * px;
  }

  /** The track and the preview agree: for an overlay's first timing, at a
      positive scale, the playhead lies over the bar exactly when the preview
      shows an unselected overlay. */
  lemma BarUnderPlayheadIffVisible(s: EditorState, o: Overlay, t: OverlayTiming, px: real)
    requires px > 0.0
    requires o in s.timeline.overlays
    requires Preview.FirstTimingFor(s.overlayTimings, o.id) == Some(t)
    requires Preview.SegmentById(s.timeline.segments, t.segmentId).Some?
    requires s.selectedOverlayId != Some(o.id)
    ensures TrackBar(s, t, px).Some?
    ensures var b := TrackBar(s, t, px).value;
            var x := PlayheadClock.Position(TrackLabelWidth, px, s.currentTime);
            Preview.IsVisible(s, o) <==> TrackLabelWidth + b.left <= x < TrackLabelWidth + b.left + b.width
  {
    var seg := Preview.SegmentById(s.timeline.segments, t.segmentId).value;
    var start := seg.startTime + t.startTime;
    var ct := s.currentTime;
    assert EditorReducer.FindOverlay(s.timeline.overlays, t.overlayId).Some?;
    var b := TrackBar(s, t, px).value;
    assert b.left == start * px && b.width == t.duration * px;
    var x := PlayheadClock.Position(TrackLabelWidth, px, ct);
    assert x == TrackLabelWidth + ct * px;
    assert Preview.IsVisible(s, o) <==> start <= ct < start + t.duration by {
      assert Preview.SegmentById(s.timeline.segments, t.segmentId) == Some(seg);
    }
    ScaleWindow(start, t.duration, ct, px);
  }

  /** The start a dragged timing lands on: never before its segment's start
      and never so late that it would run past the segment's end, when it fits. */
  function DragStart(initial: real, deltaSec: real, segmentDuration: real, timingDuration: real): (r: real)
    ensures 0.0 <= r <= Max(0.0, segmentDuration - timingDuration)
    ensures timingDuration <= segmentDuration ==> r + timingDuration <= segmentDuration
    ensures 0.0 <= initial + deltaSec <= segmentDuration - timingDuration ==> r == initial + deltaSec
  {
    Min(Max(0.0, initial + deltaSec), Max(0.0, segmentDuration - timingDuration))
  }

  /** A longer drag never moves the timing earlier. */
  lemma DragMonotone(initial: real, d1: real, d2: real, segmentDuration: real, timingDuration: real)
    requires d1 <= d2
    ensures DragStart(initial, d1, segmentDuration, timingDuration) <= DragStart(initial, d2, segmentDuration, timingDuration)
  {
  }

  /** The UPDATE_OVERLAY_TIMING a mouse move sends, for a horizontal
      displacement in pixels. */
  function DragAction(t: OverlayTiming, seg: VideoSegment, dxPx: real, px: real): (a: Action)
    requires px > 0.0
    ensures a.UpdateOverlayTiming? && a.timing.overlayId == t.overlayId && a.timing.segmentId == t.segmentId
    ensures a.timing.duration == t.duration
  {
    UpdateOverlayTiming(t.(startTime := DragStart(t.startTime, dxPx / px, seg.duration, t.duration)))
  }

  /** After a drag step the dragged timing sits inside its segment when it
      fits, and every other timing is untouched. */
  lemma DragStaysInSegment(s: EditorState, t: OverlayTiming, seg: VideoSegment, dxPx: real, px: real)
    requires px > 0.0
    ensures var r := EditorReducer.Reduce(s, DragAction(t, seg, dxPx, px));
            && |r.overlayTimings| == |s.overlayTimings|
            && forall i :: 0 <= i < |r.overlayTimings| ==>
                 if s.overlayTimings[i].overlayId == t.overlayId && s.overlayTimings[i].segmentId == t.segmentId
                 then r.overlayTimings[i].duration == t.duration
                      && 0.0 <= r.overlayTimings[i].startTime <= Max(0.0, seg.duration - t.duration)
                      && (t.duration <= seg.duration ==> r.overlayTimings[i].startTime + t.duration <= seg.duration)
                 else r.overlayTimings[i] == s.overlayTimings[i]
    ensures EditorReducer.Reduce(s, DragAction(t, seg, dxPx, px)).timeline == s.timeline
  {
  }
}

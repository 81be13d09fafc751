/** What every reachable editor state satisfies, and what each action does to it. */
module EditorInvariants {
  import opened Wrappers
  import opened Entities
  import opened EditorState
  import opened EditorReducer
  import opened OverlayConstraint
  import opened SegmentSort
  import Normalize
  import SegmentEdits
  import TimelineCalc

  /** The editor's state invariant: segments start at 0 or later, have positive
      durations and do not overlap; the cached duration is the latest end; the
      playhead is not negative; edit mode implies selection; every overlay lies
      inside the frame. */
  ghost predicate Valid(s: EditorState) {
    && WellFormedSegments(s.timeline.segments)
    && NonOverlapping(s.timeline.segments)
    && s.timeline.duration == CalculateDuration(s.timeline.segments)
    && s.currentTime >= 0.0
    && SelectionConsistent(s)
    && forall i :: 0 <= i < |s.timeline.overlays| ==> InBounds(s.timeline.overlays[i].geometry)
  }

  /** A resize patch cannot push an axis out of the frame: on each axis either
      the width (height) is kept or is at least the minimum size, or the
      position is kept or leaves room for the minimum size. */
  ghost predicate PatchKeepsFrame(p: GeometryPatch) {
    && (p.width.None? || p.width.value >= MinSize || p.x.None? || p.x.value <= 1.0 - MinSize)
    && (p.height.None? || p.height.value >= MinSize || p.y.None? || p.y.value <= 1.0 - MinSize)
  }

  /** What the invariant asks of action payloads: appended segments have a
      positive duration and stored geometries lie inside the frame. */
  ghost predicate ActionValid(a: Action) {
    match a
    case AddSegment(seg) => seg.duration > 0.0
    case AddOverlay(o) => InBounds(o.geometry)
    case UpdateOverlayGeometry(_, g) => InBounds(g)
    case ResizeOverlay(_, p) => PatchKeepsFrame(p)
    case _ => true
  }

  /** The reducer's duration and the domain service's duration agree up to the
      floor at 0 of the latter; on well-formed segments they are equal. */
  lemma CalculateDurationAgrees(segs: seq<VideoSegment>)
    ensures TimelineCalc.CalcDuration(segs) == Max(0.0, CalculateDuration(segs))
    ensures WellFormedSegments(segs) ==> CalculateDuration(segs) == TimelineCalc.CalcDuration(segs)
  {
    var r, c := TimelineCalc.CalcDuration(segs), CalculateDuration(segs);
    if |segs| > 0 {
      var i :| 0 <= i < |segs| && c == SegmentEnd(segs[i]);
      assert SegmentEnd(segs[i]) <= r;
      if r != 0.0 {
        var j :| 0 <= j < |segs| && r == SegmentEnd(segs[j]);
        assert SegmentEnd(segs[j]) <= c;
      }
      if WellFormedSegments(segs) {
        assert SegmentEnd(segs[0]) > 0.0;
      }
    }
  }

  /** The initial state is valid and its cached duration is the domain duration. */
  lemma InitialStateValid()
    ensures Valid(InitialEditorState())
    ensures InitialEditorState().timeline.duration == TimelineCalc.CalcDuration(InitialEditorState().timeline.segments)
  {
  }

  /** A valid state's segments are sorted by start. */
  lemma ValidIsSorted(s: EditorState)
    requires Valid(s)
    ensures SortedByStart(s.timeline.segments)
  {
    NonOverlappingIsSorted(s.timeline.segments);
  }

  /** PLAY and PAUSE change only the playing flag; SET_TIME changes only the
      playhead, to the requested time floored at 0. */
  lemma PlayPauseSetTime(s: EditorState, t: real)
    ensures var r := Reduce(s, Play); r.isPlaying && r == s.(isPlaying := r.isPlaying)
    ensures var r := Reduce(s, Pause); !r.isPlaying && r == s.(isPlaying := r.isPlaying)
    ensures var r := Reduce(s, SetTime(t));
            r == s.(currentTime := r.currentTime) && r.currentTime >= 0.0
            && (t >= 0.0 ==> r.currentTime == t) && (t < 0.0 ==> r.currentTime == 0.0)
  {
  }

  /** TICK either reaches the end, rewinding to 0 and pausing, or advances the
      playhead (floored at 0) and leaves the playing flag; it never starts
      playback and touches nothing else. Unless a negative step meets an empty
      timeline, the playhead ends up before the end or rewound and paused. */
  lemma TickOutcome(s: EditorState, d: real)
    ensures var r := Reduce(s, Tick(d));
            r == s.(currentTime := r.currentTime, isPlaying := r.isPlaying)
    ensures var r := Reduce(s, Tick(d));
            s.currentTime + d >= s.timeline.duration ==> r.currentTime == 0.0 && !r.isPlaying
    ensures var r := Reduce(s, Tick(d));
            s.currentTime + d < s.timeline.duration ==>
              r.isPlaying == s.isPlaying && r.currentTime == Max(0.0, s.currentTime + d)
    ensures var r := Reduce(s, Tick(d));
            && r.currentTime >= 0.0
            && (r.isPlaying ==> s.isPlaying)
            && ((s.currentTime >= 0.0 && d >= 0.0) || s.timeline.duration > 0.0 ==>
                  r.currentTime < s.timeline.duration || (r.currentTime == 0.0 && !r.isPlaying))
  {
  }

  /** ADD_SEGMENT keeps every earlier segment and appends the payload, with its
      id, source and duration, starting where the previous last segment ended
      (0 on an empty timeline); positive-duration appends keep the segments
      well-formed and non-overlapping. */
  lemma AddSegmentAppends(s: EditorState, seg: VideoSegment)
    ensures var r := Reduce(s, AddSegment(seg)).timeline.segments;
            var prior := s.timeline.segments;
            && |r| == |prior| + 1 && r[..|prior|] == prior
            && r[|prior|].id == seg.id && r[|prior|].source == seg.source && r[|prior|].duration == seg.duration
            && (|prior| == 0 ==> r[|prior|].startTime == 0.0)
            && (|prior| > 0 ==> r[|prior|].startTime == SegmentEnd(prior[|prior| - 1]))
    ensures seg.duration > 0.0 && WellFormedSegments(s.timeline.segments) && NonOverlapping(s.timeline.segments) ==>
              var r := Reduce(s, AddSegment(seg)).timeline.segments;
              WellFormedSegments(r) && NonOverlapping(r)
  {
    var prior := s.timeline.segments;
    var appended := seg.(startTime := AppendStart(prior));
    assert Reduce(s, AddSegment(seg)) == WithSegments(s, prior + [appended]);
    var r := Reduce(s, AddSegment(seg)).timeline.segments;
    assert r == prior + [appended];
    assert r[..|prior|] == prior;
    if seg.duration > 0.0 && WellFormedSegments(prior) && NonOverlapping(prior) {
      forall i | 0 < i < |r|
        ensures SegmentEnd(r[i - 1]) <= r[i].startTime
      {
        if i < |prior| {
          assert r[i - 1] == prior[i - 1] && r[i] == prior[i];
        }
      }
    }
  }

  /** What an action leaves of the timeline: only the segment actions touch
      the segments and the cached duration, and an action for which the reducer
      builds no new timeline object leaves the timeline equal to the old one. */
  lemma ReduceFrame(s: EditorState, a: Action)
    ensures !(a.AddSegment? || a.MoveSegment? || a.ResizeSegment?) ==>
              Reduce(s, a).timeline.segments == s.timeline.segments
              && Reduce(s, a).timeline.duration == s.timeline.duration
    ensures !ReplacesTimeline(s, a) ==> Reduce(s, a).timeline == s.timeline
  {
  }

  /** Every segment edit leaves the cached duration equal to the latest end of
      the new segments. */
  lemma SegmentEditsRecomputeDuration(s: EditorState, a: Action)
    requires a.AddSegment? || a.MoveSegment? || a.ResizeSegment?
    ensures var r := Reduce(s, a);
            && r.timeline.duration == CalculateDuration(r.timeline.segments)
            && (forall i :: 0 <= i < |r.timeline.segments| ==> SegmentEnd(r.timeline.segments[i]) <= r.timeline.duration)
            && r.timeline.overlays == s.timeline.overlays
  {
  }

  /** MOVE_SEGMENT keeps the bag of (id, source, duration) shapes, leaves no
      overlap, and keeps well-formed segments well-formed. */
  lemma MoveSegmentKeepsShapes(s: EditorState, id: string, delta: real)
    ensures var r := Reduce(s, MoveSegment(id, delta)).timeline.segments;
            && multiset(Shapes(r)) == multiset(Shapes(s.timeline.segments))
            && NonOverlapping(r)
            && (WellFormedSegments(s.timeline.segments) ==> WellFormedSegments(r))
  {
    var segs := s.timeline.segments;
    var shifted := ShiftWhere(segs, id, delta);
    assert Reduce(s, MoveSegment(id, delta)).timeline.segments == Normalize.NormalizeSegments(shifted);
    ShiftKeepsShapes(segs, id, delta);
    Normalize.NormalizeKeepsShapes(shifted);
    Normalize.NormalizeKeepsWellFormed(shifted);
  }

  /** RESIZE_SEGMENT changes at most the target's duration: the bag of shapes
      is that of the per-segment resize, every other segment's shape survives,
      no overlap is left, and well-formed segments stay well-formed. */
  lemma ResizeSegmentKeepsShapes(s: EditorState, id: string, delta: real, edge: SegmentEdits.Edge)
    ensures var r := Reduce(s, ResizeSegment(id, delta, edge)).timeline.segments;
            && multiset(Shapes(r)) == multiset(Shapes(SegmentEdits.ResizeEach(s.timeline.segments, id, delta, edge)))
            && (forall i :: 0 <= i < |s.timeline.segments| && s.timeline.segments[i].id != id ==>
                  Shape(s.timeline.segments[i]) in multiset(Shapes(r)))
            && NonOverlapping(r)
            && (WellFormedSegments(s.timeline.segments) ==> WellFormedSegments(r))
  {
    var segs := s.timeline.segments;
    var resized := SegmentEdits.ResizeSegment(segs, id, delta, edge);
    assert Reduce(s, ResizeSegment(id, delta, edge)) == WithSegments(s, resized);
    assert NonOverlapping(resized);
    assert multiset(Shapes(resized)) == multiset(Shapes(SegmentEdits.ResizeEach(segs, id, delta, edge)));
    assert WellFormedSegments(segs) ==> WellFormedSegments(resized);
    SegmentEdits.ResizeKeepsOtherShapes(segs, id, delta, edge);
    assert Reduce(s, ResizeSegment(id, delta, edge)).timeline.segments == resized;
  }

  /** The shift before normalization moves start times only, never below 0. */
  lemma ShiftKeepsShapes(segs: seq<VideoSegment>, id: string, delta: real)
    ensures Shapes(ShiftWhere(segs, id, delta)) == Shapes(segs)
    ensures WellFormedSegments(segs) ==> WellFormedSegments(ShiftWhere(segs, id, delta))
  {
    var shifted := ShiftWhere(segs, id, delta);
    forall i | 0 <= i < |segs|
      ensures Shape(shifted[i]) == Shape(segs[i])
    {
    }
  }

  /** UPDATE_OVERLAY_GEOMETRY stores the geometry as given, without clamping, on
      every overlay with the id. */
  lemma UpdateGeometryUnclamped(s: EditorState, id: string, g: OverlayGeometry)
    ensures var r := Reduce(s, UpdateOverlayGeometry(id, g)).timeline.overlays;
            && |r| == |s.timeline.overlays|
            && forall i :: 0 <= i < |r| ==>
                 r[i] == if s.timeline.overlays[i].id == id then s.timeline.overlays[i].(geometry := g) else s.timeline.overlays[i]
  {
  }

  /** The geometry a MOVE_OVERLAY or RESIZE_OVERLAY computes from the first
      overlay with the id. */
  function OverlayTarget(o: Overlay, a: Action): OverlayGeometry
    requires a.MoveOverlay? || a.ResizeOverlay?
  {
    if a.MoveOverlay? then o.geometry.(x := o.geometry.x + a.dx, y := o.geometry.y + a.dy)
    else PatchGeometry(o.geometry, a.patch)
  }

  /** MOVE_OVERLAY and RESIZE_OVERLAY: an unknown id leaves the state unchanged;
      otherwise only geometries change, each overlay with the id receiving the
      clamp of the first such overlay's moved or patched geometry. */
  lemma OverlayMoveResize(s: EditorState, a: Action)
    requires a.MoveOverlay? || a.ResizeOverlay?
    ensures FindOverlay(s.timeline.overlays, a.overlayId).None? ==> Reduce(s, a) == s
    ensures FindOverlay(s.timeline.overlays, a.overlayId).Some? ==>
              var o := FindOverlay(s.timeline.overlays, a.overlayId).value;
              var next := OverlayConstraint.ConstrainOverlay(OverlayTarget(o, a));
              var r := Reduce(s, a);
              && r == s.(timeline := s.timeline.(overlays := r.timeline.overlays))
              && |r.timeline.overlays| == |s.timeline.overlays|
              && forall i :: 0 <= i < |s.timeline.overlays| ==>
                   r.timeline.overlays[i] ==
                     if s.timeline.overlays[i].id == a.overlayId then s.timeline.overlays[i].(geometry := next)
                     else s.timeline.overlays[i]
  {
  }

  /** A style edit on an overlay without a style fills every absent field with
      its default; fields in the patch always win; an empty patch keeps an
      existing style; repeating an edit changes nothing. */
  lemma MergeStyleDefaults(prev: Option<TextStyle>, p: StylePatch)
    ensures var t := MergeStyle(None, StylePatch(None, None, None, None));
            t == TextStyle(16.0, "#ffffff", "#000000", 0.4)
    ensures var t := MergeStyle(prev, p);
            && (p.fontSize.Some? ==> t.fontSize == p.fontSize.value)
            && (p.color.Some? ==> t.color == p.color.value)
            && (p.backgroundColor.Some? ==> t.backgroundColor == p.backgroundColor.value)
            && (p.backgroundOpacity.Some? ==> t.backgroundOpacity == p.backgroundOpacity.value)
    ensures prev.Some? ==> MergeStyle(prev, StylePatch(None, None, None, None)) == prev.value
    ensures MergeStyle(Some(MergeStyle(prev, p)), p) == MergeStyle(prev, p)
  {
  }

  /** UPDATE_TEXT_STYLE gives every overlay with the id the merged style and
      leaves every other overlay alone. */
  lemma UpdateTextStyleMerges(s: EditorState, id: string, p: StylePatch)
    ensures var r := Reduce(s, UpdateTextStyle(id, p)).timeline.overlays;
            && |r| == |s.timeline.overlays|
            && forall i :: 0 <= i < |r| ==>
                 r[i] == if s.timeline.overlays[i].id == id
                         then s.timeline.overlays[i].(textStyle := Some(MergeStyle(s.timeline.overlays[i].textStyle, p)))
                         else s.timeline.overlays[i]
  {
  }

    /** Moving B back by 8 seconds on [A 0/5, B 5/5] clamps it to 0, sorts it
      after A (equal starts keep their order) and pushes it to A's end. */
  lemma MoveOntoNeighbour(s: EditorState, a: VideoSegment, b: VideoSegment)
    requires s.timeline.segments == [a, b] && a.id != b.id
    requires a.startTime == 0.0 && a.duration == 5.0 && b.startTime == 5.0 && b.duration == 5.0
    ensures Reduce(s, MoveSegment(b.id, -8.0)).timeline.segments == [a, b.(startTime := 5.0)]
    ensures Reduce(s, MoveSegment(b.id, -8.0)).timeline.duration == 10.0
  {
    var r := Reduce(s, MoveSegment(b.id, -8.0));
    var shifted := ShiftWhere(s.timeline.segments, b.id, -8.0);
    assert r == WithSegments(s, Normalize.NormalizeSegments(shifted));
    assert shifted == [a, b.(startTime := 0.0)];
    PushBehind(a, b.(startTime := 0.0));
    assert r.timeline.segments == [a, b.(startTime := 5.0)];
  }

  lemma PushBehind(a: VideoSegment, b: VideoSegment)
    requires a.startTime == 0.0 && a.duration == 5.0 && b.startTime == 0.0
    ensures Normalize.NormalizeSegments([a, b]) == [a, b.(startTime := 5.0)]
  {
    var s := [a, b];
    assert SortedByStart(s);
    SortedIsFixpoint(s);
    var r := Normalize.PushForward(s);
    assert r[0] == a;
    assert r[1] == Normalize.PushPast(b, 5.0) == b.(startTime := 5.0);
    assert Normalize.NormalizeSegments(s) == r;
  }

  /** ADD_OVERLAY and ADD_OVERLAY_TIMING append their payload and touch
      nothing else. */
  lemma AddOverlayRecords(s: EditorState, o: Overlay, t: OverlayTiming)
    ensures Reduce(s, AddOverlay(o)) == s.(timeline := s.timeline.(overlays := s.timeline.overlays + [o]))
    ensures Reduce(s, AddOverlayTiming(t)) == s.(overlayTimings := s.overlayTimings + [t])
  {
  }

  /** UPDATE_OVERLAY_CONTENT sets the text and image source it carries on the
      overlays with the id, keeps the fields it does not carry, changes nothing
      else, and repeating it changes nothing more. */
  lemma ContentUpdate(s: EditorState, id: string, text: Option<string>, imageSrc: Option<string>)
    ensures var r := Reduce(s, UpdateOverlayContent(id, text, imageSrc));
            && r == s.(timeline := s.timeline.(overlays := r.timeline.overlays))
            && |r.timeline.overlays| == |s.timeline.overlays|
            && forall i :: 0 <= i < |r.timeline.overlays| ==>
                 var o := s.timeline.overlays[i];
                 r.timeline.overlays[i] == if o.id == id
                                           then o.(text := if text.Some? then text else o.text,
                                                   imageSrc := if imageSrc.Some? then imageSrc else o.imageSrc)
                                           else o
    ensures var r := Reduce(s, UpdateOverlayContent(id, text, imageSrc));
            Reduce(r, UpdateOverlayContent(id, text, imageSrc)) == r
  {
  }

  /** UPDATE_OVERLAY_TIMING replaces every timing of the same overlay on the
      same segment by the payload, keeps the others, and is idempotent. */
  lemma TimingUpdate(s: EditorState, t: OverlayTiming)
    ensures var r := Reduce(s, UpdateOverlayTiming(t));
            && r == s.(overlayTimings := r.overlayTimings)
            && |r.overlayTimings| == |s.overlayTimings|
            && forall i :: 0 <= i < |r.overlayTimings| ==>
                 r.overlayTimings[i] == if s.overlayTimings[i].overlayId == t.overlayId && s.overlayTimings[i].segmentId == t.segmentId
                                        then t else s.overlayTimings[i]
    ensures var r := Reduce(s, UpdateOverlayTiming(t));
            Reduce(r, UpdateOverlayTiming(t)) == r
  {
  }

/** Only the three selection actions touch the selected and editing ids:
      SELECT clears editing, START_EDIT_TEXT sets both to the same id, DESELECT
      clears both. */
  lemma SelectionActions(s: EditorState, a: Action)
    ensures var r := Reduce(s, a);
            !(a.SelectOverlay? || a.StartEditText? || a.DeselectOverlay?) ==>
              r.selectedOverlayId == s.selectedOverlayId && r.editingOverlayId == s.editingOverlayId
    ensures a.SelectOverlay? ==> Reduce(s, a) == s.(selectedOverlayId := Some(a.overlayId), editingOverlayId := None)
    ensures a.StartEditText? ==> Reduce(s, a) == s.(selectedOverlayId := Some(a.overlayId), editingOverlayId := Some(a.overlayId))
    ensures a.DeselectOverlay? ==> Reduce(s, a) == s.(selectedOverlayId := None, editingOverlayId := None)
    ensures SelectionConsistent(s) ==> SelectionConsistent(Reduce(s, a))
  {
  }

  /** Overlay updates that store in-bounds geometries keep every overlay in bounds. */
  lemma UpdateWhereKeepsBounds(overlays: seq<Overlay>, id: string, f: Overlay -> Overlay)
    requires forall i :: 0 <= i < |overlays| ==> InBounds(overlays[i].geometry)
    requires forall o :: o in overlays && o.id == id ==> InBounds(f(o).geometry)
    ensures forall i :: 0 <= i < |overlays| ==> InBounds(UpdateWhere(overlays, id, f)[i].geometry)
  {
  }

  /** MOVE_OVERLAY and RESIZE_OVERLAY from an in-bounds overlay land in bounds
      (for a resize, when the patch keeps the frame). */
  lemma TargetStaysInFrame(s: EditorState, a: Action)
    requires a.MoveOverlay? || a.ResizeOverlay?
    requires a.ResizeOverlay? ==> PatchKeepsFrame(a.patch)
    requires forall i :: 0 <= i < |s.timeline.overlays| ==> InBounds(s.timeline.overlays[i].geometry)
    requires FindOverlay(s.timeline.overlays, a.overlayId).Some?
    ensures InBounds(OverlayConstraint.ConstrainOverlay(OverlayTarget(FindOverlay(s.timeline.overlays, a.overlayId).value, a)))
  {
    var o := FindOverlay(s.timeline.overlays, a.overlayId).value;
    var k :| 0 <= k < |s.timeline.overlays| && s.timeline.overlays[k] == o;
    assert InBounds(o.geometry);
  }

  lemma SegmentActionPreserves(s: EditorState, a: Action)
    requires Valid(s) && ActionValid(a)
    requires a.AddSegment? || a.MoveSegment? || a.ResizeSegment?
    ensures Valid(Reduce(s, a))
  {
    var r := Reduce(s, a);
    assert r.timeline.overlays == s.timeline.overlays && r.currentTime == s.currentTime;
    assert r.selectedOverlayId == s.selectedOverlayId && r.editingOverlayId == s.editingOverlayId;
    assert r.timeline.duration == CalculateDuration(r.timeline.segments);
    match a
    case AddSegment(seg) =>
      AddSegmentAppends(s, seg);
    case MoveSegment(id, delta) =>
      MoveSegmentKeepsShapes(s, id, delta);
    case ResizeSegment(id, delta, edge) =>
      assert r.timeline.segments == SegmentEdits.ResizeSegment(s.timeline.segments, id, delta, edge);
  }

  /** A state that differs from a valid one only in in-frame overlays is valid. */
  lemma OverlaysOnlyChange(s: EditorState, r: EditorState)
    requires Valid(s) && r == s.(timeline := s.timeline.(overlays := r.timeline.overlays))
    requires forall i :: 0 <= i < |r.timeline.overlays| ==> InBounds(r.timeline.overlays[i].geometry)
    ensures Valid(r)
  {
  }

  /** MOVE_OVERLAY and RESIZE_OVERLAY keep every overlay in the frame. */
  lemma ClampedActionPreserves(s: EditorState, a: Action)
    requires Valid(s) && ActionValid(a)
    requires a.MoveOverlay? || a.ResizeOverlay?
    ensures Valid(Reduce(s, a))
  {
    if FindOverlay(s.timeline.overlays, a.overlayId).Some? {
      var o := FindOverlay(s.timeline.overlays, a.overlayId).value;
      TargetStaysInFrame(s, a);
      var next := OverlayConstraint.ConstrainOverlay(OverlayTarget(o, a));
      OverlayMoveResize(s, a);
      UpdateWhereKeepsBounds(s.timeline.overlays, o.id, (v: Overlay) => v.(geometry := next));
      OverlaysOnlyChange(s, Reduce(s, a));
    }
  }

  lemma OverlayActionPreserves(s: EditorState, a: Action)
    requires Valid(s) && ActionValid(a)
    requires a.AddOverlay? || a.UpdateOverlayGeometry? || a.MoveOverlay? || a.ResizeOverlay?
             || a.UpdateOverlayContent? || a.UpdateTextStyle?
    ensures Valid(Reduce(s, a))
  {
    var r := Reduce(s, a);
    match a
    case AddOverlay(o) =>
      assert forall i :: 0 <= i < |s.timeline.overlays| ==> r.timeline.overlays[i] == s.timeline.overlays[i];
      OverlaysOnlyChange(s, r);
    case UpdateOverlayGeometry(id, g) =>
      UpdateWhereKeepsBounds(s.timeline.overlays, id, (v: Overlay) => v.(geometry := g));
      OverlaysOnlyChange(s, r);
    case MoveOverlay(_, _, _) =>
      ClampedActionPreserves(s, a);
    case ResizeOverlay(_, _) =>
      ClampedActionPreserves(s, a);
    case UpdateOverlayContent(id, _, _) =>
      OverlaysOnlyChange(s, r);
    case UpdateTextStyle(id, _) =>
      OverlaysOnlyChange(s, r);
  }

  /** The invariant holds after every action whose payload is valid. */
  lemma ValidPreserved(s: EditorState, a: Action)
    requires Valid(s) && ActionValid(a)
    ensures Valid(Reduce(s, a))
  {
    if a.AddSegment? || a.MoveSegment? || a.ResizeSegment? {
      SegmentActionPreserves(s, a);
    } else if a.AddOverlay? || a.UpdateOverlayGeometry? || a.MoveOverlay? || a.ResizeOverlay?
              || a.UpdateOverlayContent? || a.UpdateTextStyle? {
      OverlayActionPreserves(s, a);
    } else {
      SelectionActions(s, a);
    }
  }

  /** Without the patch condition the frame invariant can break: a resize to
      width 0.01 at x 0.99 leaves an in-bounds overlay sticking out. */
  lemma ResizeCanLeaveFrame(s: EditorState, o: Overlay)
    requires s.timeline.overlays == [o] && o.geometry == OverlayGeometry(0.1, 0.1, 0.5, 0.5)
    ensures var r := Reduce(s, ResizeOverlay(o.id, GeometryPatch(Some(0.99), None, Some(0.01), None)));
            !InBounds(r.timeline.overlays[0].geometry)
  {
    OverlayConstraint.TinyWidthEscapesFrame();
  }
}

/** `editorReducer`: the total transition function of the editor state. */
module EditorReducer {
  import opened Wrappers
  import opened Entities
  import opened EditorState
  import Normalize
  import SegmentEdits
  import OverlayConstraint

  /** The reducer's own duration: the maximum segment end, 0 when there are none
      (`Math.max(...ends)` behind an empty-list guard). */
  function CalculateDuration(segs: seq<VideoSegment>): (r: real)
    ensures |segs| == 0 ==> r == 0.0
    ensures forall i :: 0 <= i < |segs| ==> SegmentEnd(segs[i]) <= r
    ensures |segs| > 0 ==> exists i :: 0 <= i < |segs| && r == SegmentEnd(segs[i])
  {
    if |segs| == 0 then 0.0
    else if |segs| == 1 then SegmentEnd(segs[0])
    else
      var rest := CalculateDuration(segs[1..]);
      assert forall i :: 1 <= i < |segs| ==> segs[1..][i - 1] == segs[i];
      Max(SegmentEnd(segs[0]), rest)
  }

  /** First overlay with the id (`overlays.find`). */
  function FindOverlay(overlays: seq<Overlay>, id: string): (r: Option<Overlay>)
    ensures r.None? <==> forall i :: 0 <= i < |overlays| ==> overlays[i].id != id
    ensures r.Some? ==> r.value.id == id && r.value in overlays
    ensures r.Some? ==> exists k :: 0 <= k < |overlays| && overlays[k] == r.value
                                    && forall j :: 0 <= j < k ==> overlays[j].id != id
  {
    if |overlays| == 0 then None
    else if overlays[0].id == id then Some(overlays[0])
    else
      assert forall i :: 1 <= i < |overlays| ==> overlays[1..][i - 1] == overlays[i];
      FindOverlay(overlays[1..], id)
  }

  /** Applies `f` to every overlay carrying the id and copies the rest (`overlays.map`). */
  function UpdateWhere(overlays: seq<Overlay>, id: string, f: Overlay -> Overlay): (r: seq<Overlay>)
    ensures |r| == |overlays|
    ensures forall i :: 0 <= i < |overlays| ==>
              r[i] == if overlays[i].id == id then f(overlays[i]) else overlays[i]
  {
    seq(|overlays|, i requires 0 <= i < |overlays| =>
      if overlays[i].id == id then f(overlays[i]) else overlays[i])
  }

  /** `{ ...geometry, ...patch }`: fields present in the patch win. */
  function PatchGeometry(g: OverlayGeometry, p: GeometryPatch): OverlayGeometry {
    OverlayGeometry(p.x.GetOr(g.x), p.y.GetOr(g.y), p.width.GetOr(g.width), p.height.GetOr(g.height))
  }

  const DefaultFontSize: real := 16.0
  const DefaultColor: string := "#ffffff"
  const DefaultBackgroundColor: string := "#000000"
  const DefaultBackgroundOpacity: real := 0.4

  /** The style an edit produces: each field from the patch, else from the old
      style, else its default. */
  function MergeStyle(prev: Option<TextStyle>, p: StylePatch): TextStyle {
    TextStyle(
      p.fontSize.GetOr(if prev.Some? then prev.value.fontSize else DefaultFontSize),
      p.color.GetOr(if prev.Some? then prev.value.color else DefaultColor),
      p.backgroundColor.GetOr(if prev.Some? then prev.value.backgroundColor else DefaultBackgroundColor),
      p.backgroundOpacity.GetOr(if prev.Some? then prev.value.backgroundOpacity else DefaultBackgroundOpacity))
  }

  /** Where an appended segment starts: the last segment's end, or 0. */
  function AppendStart(segs: seq<VideoSegment>): real {
    if |segs| > 0 then SegmentEnd(segs[|segs| - 1]) else 0.0
  }

  /** MOVE_SEGMENT's own update: every segment with the id shifts by `delta`,
      clamped at 0, before normalization. */
  function ShiftWhere(segs: seq<VideoSegment>, id: string, delta: real): (r: seq<VideoSegment>)
    ensures |r| == |segs|
    ensures forall i :: 0 <= i < |segs| ==>
              r[i] == if segs[i].id == id then segs[i].(startTime := Max(0.0, segs[i].startTime + delta)) else segs[i]
  {
    seq(|segs|, i requires 0 <= i < |segs| =>
      if segs[i].id == id then segs[i].(startTime := Max(0.0, segs[i].startTime + delta)) else segs[i])
  }

  function WithSegments(s: EditorState, segs: seq<VideoSegment>): EditorState {
    s.(timeline := s.timeline.(segments := segs, duration := CalculateDuration(segs)))
  }

  function WithOverlays(s: EditorState, overlays: seq<Overlay>): EditorState {
    s.(timeline := s.timeline.(overlays := overlays))
  }

  /** Replaces the overlay's geometry, found by id, with the clamp of `g`;
      an unknown id leaves the state as it is. */
  function SetConstrained(s: EditorState, id: string, patch: OverlayGeometry -> OverlayGeometry): EditorState {
    match FindOverlay(s.timeline.overlays, id)
    case None => s
    case Some(o) =>
      var next := OverlayConstraint.ConstrainOverlay(patch(o.geometry));
      WithOverlays(s, UpdateWhere(s.timeline.overlays, o.id, (v: Overlay) => v.(geometry := next)))
  }

  /** One editor transition. Only the timing actions touch the timings, and
      the time never becomes negative; what each action does to the timeline
      is stated by the lemmas of `EditorInvariants`. */
  function Reduce(s: EditorState, a: Action): (r: EditorState)
    ensures !(a.AddOverlayTiming? || a.UpdateOverlayTiming?) ==> r.overlayTimings == s.overlayTimings
    ensures s.currentTime >= 0.0 ==> r.currentTime >= 0.0
  {
    match a
    case Play => s.(isPlaying := true)
    case Pause => s.(isPlaying := false)
    case SetTime(t) => s.(currentTime := Max(0.0, t))
    case Tick(d) =>
      var next := s.currentTime + d;
      if next >= s.timeline.duration then s.(currentTime := 0.0, isPlaying := false)
      else s.(currentTime := Max(0.0, next))
    case AddSegment(seg) =>
      WithSegments(s, s.timeline.segments + [seg.(startTime := AppendStart(s.timeline.segments))])
    case MoveSegment(id, delta) =>
      WithSegments(s, Normalize.NormalizeSegments(ShiftWhere(s.timeline.segments, id, delta)))
    case ResizeSegment(id, delta, edge) =>
      WithSegments(s, SegmentEdits.ResizeSegment(s.timeline.segments, id, delta, edge))
    case AddOverlay(o) => WithOverlays(s, s.timeline.overlays + [o])
    case UpdateOverlayGeometry(id, g) =>
      WithOverlays(s, UpdateWhere(s.timeline.overlays, id, (v: Overlay) => v.(geometry := g)))
    case AddOverlayTiming(t) => s.(overlayTimings := s.overlayTimings + [t])
    case MoveOverlay(id, dx, dy) =>
      SetConstrained(s, id, (g: OverlayGeometry) => g.(x := g.x + dx, y := g.y + dy))
    case ResizeOverlay(id, p) =>
      SetConstrained(s, id, (g: OverlayGeometry) => PatchGeometry(g, p))
    case UpdateOverlayContent(id, text, imageSrc) =>
      WithOverlays(s, UpdateWhere(s.timeline.overlays, id,
        (v: Overlay) => v.(text := if text.Some? then text else v.text,
                           imageSrc := if imageSrc.Some? then imageSrc else v.imageSrc)))
    case UpdateTextStyle(id, p) =>
      WithOverlays(s, UpdateWhere(s.timeline.overlays, id,
        (v: Overlay) => v.(textStyle := Some(MergeStyle(v.textStyle, p)))))
    case UpdateOverlayTiming(t) =>
      s.(overlayTimings := seq(|s.overlayTimings|, i requires 0 <= i < |s.overlayTimings| =>
        if s.overlayTimings[i].overlayId == t.overlayId && s.overlayTimings[i].segmentId == t.segmentId
        then t else s.overlayTimings[i]))
    case SelectOverlay(id) => s.(selectedOverlayId := Some(id), editingOverlayId := None)
    case StartEditText(id) => s.(selectedOverlayId := Some(id), editingOverlayId := Some(id))
    case DeselectOverlay => s.(selectedOverlayId := None, editingOverlayId := None)
  }

  /** Whether the reducer builds a new timeline object for this action (what a
      dependency on `state.timeline` observes). */
  predicate ReplacesTimeline(s: EditorState, a: Action) {
    match a
    case AddSegment(_) => true
    case MoveSegment(_, _) => true
    case ResizeSegment(_, _, _) => true
    case AddOverlay(_) => true
    case UpdateOverlayGeometry(_, _) => true
    case MoveOverlay(id, _, _) => FindOverlay(s.timeline.overlays, id).Some?
    case ResizeOverlay(id, _) => FindOverlay(s.timeline.overlays, id).Some?
    case UpdateOverlayContent(_, _, _) => true
    case UpdateTextStyle(_, _) => true
    case _ => false
  }
}

/** The single authoritative editor state, its action alphabet and its initial value. */
module EditorState {
  import opened Wrappers
  import opened Entities
  import SegmentEdits

  datatype EditorState = EditorState(
    timeline: Timeline,
    currentTime: real,
    isPlaying: bool,
    overlayTimings: seq<OverlayTiming>,
    selectedOverlayId: Option<string>,
    editingOverlayId: Option<string>)

  /** `Partial<OverlayGeometry>`: the fields a resize carries. */
  datatype GeometryPatch = GeometryPatch(x: Option<real>, y: Option<real>, width: Option<real>, height: Option<real>)

  /** `Partial<TextStyle>`: the fields a style edit carries. */
  datatype StylePatch = StylePatch(
    fontSize: Option<real>, color: Option<string>,
    backgroundColor: Option<string>, backgroundOpacity: Option<real>)

  datatype Action =
    | Play
    | Pause
    | SetTime(time: real)
    | Tick(delta: real)
    | AddSegment(segment: VideoSegment)
    | MoveSegment(segmentId: string, delta: real)
    | ResizeSegment(segmentId: string, delta: real, edge: SegmentEdits.Edge)
    | AddOverlay(overlay: Overlay)
    | AddOverlayTiming(timing: OverlayTiming)
    | UpdateOverlayGeometry(overlayId: string, geometry: OverlayGeometry)
    | MoveOverlay(overlayId: string, dx: real, dy: real)
    | ResizeOverlay(overlayId: string, patch: GeometryPatch)
    | UpdateOverlayContent(overlayId: string, text: Option<string>, imageSrc: Option<string>)
    | UpdateTextStyle(overlayId: string, style: StylePatch)
    | SelectOverlay(overlayId: string)
    | StartEditText(overlayId: string)
    | DeselectOverlay
    | UpdateOverlayTiming(timing: OverlayTiming)

  /** The state the editor starts from: nothing on the timeline, paused at 0,
      nothing selected. */
  function InitialEditorState(): (s: EditorState)
    ensures |s.timeline.segments| == 0 && |s.timeline.overlays| == 0 && s.timeline.duration == 0.0
    ensures |s.overlayTimings| == 0 && s.currentTime == 0.0 && !s.isPlaying
    ensures s.selectedOverlayId.None? && s.editingOverlayId.None?
  {
    EditorState(Timeline([], [], 0.0), 0.0, false, [], None, None)
  }

  /** Edit mode implies selection of the same overlay. */
  ghost predicate SelectionConsistent(s: EditorState) {
    s.editingOverlayId.Some? ==> s.selectedOverlayId == s.editingOverlayId
  }
}

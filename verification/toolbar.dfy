/** The actions the editor toolbar builds: importing a file, toggling
    playback, and adding a text overlay at the playhead. Fresh ids and object
    URLs are parameters. */
module Toolbar {
  import opened Wrappers
  import opened Entities
  import opened EditorState
  import opened EditorReducer
  import SegmentResolver
  import OverlayConstraint
  import EditorInvariants
  import Preview

  const ImportedDuration: real := 10.0
  const OverlaySeconds: real := 3.0
  const NewOverlayText: string := "New Overlay"
  const NewOverlayGeometry: OverlayGeometry := OverlayGeometry(0.1, 0.8, 0.4, 0.1)

  /** `handleFileSelect`: a ten-second segment for the file, nominally at 0. */
  function FileSelectAction(id: string, url: string): (a: Action)
    ensures a.AddSegment? && a.segment.id == id && a.segment.source == url
    ensures a.segment.startTime == 0.0 && a.segment.duration == ImportedDuration
  {
    AddSegment(VideoSegment(id, url, 0.0, ImportedDuration))
  }

  /** Applies actions in order. */
  function ReduceAll(s: EditorState, actions: seq<Action>): EditorState
    decreases |actions|
  {
    if |actions| == 0 then s else ReduceAll(Reduce(s, actions[0]), actions[1..])
  }

  lemma ReduceTwo(s: EditorState, acts: seq<Action>)
    requires |acts| == 2
    ensures ReduceAll(s, acts) == Reduce(Reduce(s, acts[0]), acts[1])
  {
    var s1 := Reduce(s, acts[0]);
    assert acts[1..][0] == acts[1] && acts[1..][1..] == [];
    assert ReduceAll(s1, acts[1..]) == ReduceAll(Reduce(s1, acts[1]), []);
  }

  /** The reducer ignores the nominal start: an imported file lands after the
      last segment, and the editor stays valid. */
  lemma ImportedFileAppends(s: EditorState, id: string, url: string)
    ensures var r := Reduce(s, FileSelectAction(id, url)).timeline.segments;
            && |r| == |s.timeline.segments| + 1
            && r[|r| - 1].duration == ImportedDuration && r[|r| - 1].source == url
            && r[|r| - 1].startTime == AppendStart(s.timeline.segments)
    ensures EditorInvariants.Valid(s) ==> EditorInvariants.Valid(Reduce(s, FileSelectAction(id, url)))
  {
    if EditorInvariants.Valid(s) {
      EditorInvariants.ValidPreserved(s, FileSelectAction(id, url));
    }
  }

  /** `handlePlayPause`: PAUSE while playing, PLAY otherwise. */
  function PlayPauseAction(s: EditorState): (a: Action)
    ensures a == Pause <==> s.isPlaying
    ensures a == Play <==> !s.isPlaying
  {
    if s.isPlaying then Pause else Play
  }

  /** The button toggles playback, and pressing it twice restores the flag. */
  lemma PlayPauseToggles(s: EditorState)
    ensures Reduce(s, PlayPauseAction(s)).isPlaying == !s.isPlaying
    ensures var s1 := Reduce(s, PlayPauseAction(s)); Reduce(s1, PlayPauseAction(s1)) == s
  {
  }

  /** `handleAddOverlay`: nothing when no segment is under the playhead;
      otherwise an ADD_OVERLAY and an ADD_OVERLAY_TIMING sharing the fresh id,
      the timing starting at the playhead's offset into the segment and lasting
      three seconds. */
  function AddOverlayActions(s: EditorState, overlayId: string): (r: seq<Action>)
    ensures |r| == 0 <==> forall i :: 0 <= i < |s.timeline.segments| ==>
                            !SegmentResolver.Contains(s.timeline.segments[i], s.currentTime)
    ensures |r| == 0 || |r| == 2
    ensures |r| == 2 ==>
              && r[0].AddOverlay? && r[1].AddOverlayTiming?
              && r[0].overlay.id == overlayId && r[1].timing.overlayId == overlayId
              && r[0].overlay.segmentIds == [r[1].timing.segmentId]
              && r[0].overlay.startTime == s.currentTime
              && r[0].overlay.endTime == s.currentTime + OverlaySeconds
              && r[1].timing.duration == OverlaySeconds
              && exists k :: 0 <= k < |s.timeline.segments| && s.timeline.segments[k].id == r[1].timing.segmentId
                             && SegmentResolver.Contains(s.timeline.segments[k], s.currentTime)
                             && r[1].timing.startTime == s.currentTime - s.timeline.segments[k].startTime
                             && 0.0 <= r[1].timing.startTime < s.timeline.segments[k].duration
  {
    match SegmentResolver.FindActiveSegment(s.timeline.segments, s.currentTime)
    case None => []
    case Some(seg) =>
      [AddOverlay(Overlay(overlayId, Text, None, NewOverlayGeometry, s.currentTime, s.currentTime + OverlaySeconds,
                          [seg.id], Some(NewOverlayText), None, None)),
       AddOverlayTiming(OverlayTiming(overlayId, seg.id, s.currentTime - seg.startTime, OverlaySeconds))]
  }

  /** The new overlay's geometry already satisfies the frame bounds, so adding
      it keeps the editor valid. */
  lemma AddOverlayKeepsValid(s: EditorState, overlayId: string)
    ensures OverlayConstraint.InBounds(NewOverlayGeometry)
    ensures OverlayConstraint.ConstrainOverlay(NewOverlayGeometry) == NewOverlayGeometry
    ensures EditorInvariants.Valid(s) ==> EditorInvariants.Valid(ReduceAll(s, AddOverlayActions(s, overlayId)))
  {
    OverlayConstraint.ConstrainFixesInBounds(NewOverlayGeometry);
    var acts := AddOverlayActions(s, overlayId);
    if EditorInvariants.Valid(s) && |acts| == 2 {
      var s1 := Reduce(s, acts[0]);
      assert EditorInvariants.ActionValid(acts[0]);
      EditorInvariants.ValidPreserved(s, acts[0]);
      EditorInvariants.ValidPreserved(s1, acts[1]);
      ReduceTwo(s, acts);
    }
  }

  /** With a fresh overlay id and unique segment ids, the overlay just added
      is shown in the preview at the current time. */
  lemma AddedOverlayIsVisible(s: EditorState, overlayId: string)
    requires exists i :: 0 <= i < |s.timeline.segments| && SegmentResolver.Contains(s.timeline.segments[i], s.currentTime)
    requires forall k :: 0 <= k < |s.overlayTimings| ==> s.overlayTimings[k].overlayId != overlayId
    requires UniqueIds(s.timeline.segments)
    ensures var s2 := ReduceAll(s, AddOverlayActions(s, overlayId));
            && |s2.timeline.overlays| == |s.timeline.overlays| + 1
            && s2.timeline.overlays[|s.timeline.overlays|].id == overlayId
            && s2.timeline.overlays[|s.timeline.overlays|] in Preview.VisibleOverlays(s2)
  {
    var acts := AddOverlayActions(s, overlayId);
    var s1 := Reduce(s, acts[0]);
    var s2 := Reduce(s1, acts[1]);
    ReduceTwo(s, acts);
    var t := acts[1].timing;
    var o := acts[0].overlay;
    EditorInvariants.AddOverlayRecords(s, o, t);
    EditorInvariants.AddOverlayRecords(s1, o, t);
    assert s2.timeline.overlays == s.timeline.overlays + [o];
    assert s2.overlayTimings == s.overlayTimings + [t];
    assert s2.timeline.segments == s.timeline.segments && s2.currentTime == s.currentTime;
    var k :| 0 <= k < |s.timeline.segments| && s.timeline.segments[k].id == t.segmentId
             && SegmentResolver.Contains(s.timeline.segments[k], s.currentTime)
             && t.startTime == s.currentTime - s.timeline.segments[k].startTime;
    forall j | 0 <= j < k
      ensures s.timeline.segments[j].id != t.segmentId
    {
    }
    assert o in s2.timeline.overlays;
    Preview.VisibleIff(s2, o, |s.overlayTimings|, k);
  }
}

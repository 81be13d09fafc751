/** The three export projections: the domain service's timeline export with
    per-overlay placements, the editor-state export, and the utility export of
    the timeline with its cached duration. */
module Export {
  import opened Wrappers
  import opened Entities
  import opened EditorState
  import EditorReducer
  import EditorInvariants
  import TimelineCalc

  datatype SegmentSpan = SegmentSpan(id: string, start: real, duration: real)
  datatype Placement = Placement(segmentId: string, start: real, duration: real)
  datatype OverlayExport = OverlayExport(id: string, text: Option<string>, geometry: OverlayGeometry, placements: seq<Placement>)
  datatype TimelineExport = TimelineExport(segments: seq<SegmentSpan>, overlays: seq<OverlayExport>)

  /** The timings of one overlay, in their original order (`filter`). */
  function TimingsFor(ts: seq<OverlayTiming>, id: string): (r: seq<OverlayTiming>)
    ensures |r| <= |ts|
    ensures forall t :: t in r <==> t in ts && t.overlayId == id
  {
    if |ts| == 0 then []
    else
      assert forall t :: t in ts <==> t == ts[0] || t in ts[1..];
      (if ts[0].overlayId == id then [ts[0]] else []) + TimingsFor(ts[1..], id)
  }

  /** Filtering distributes over concatenation, so it keeps the timings' order. */
  lemma {:induction false} TimingsForAppend(a: seq<OverlayTiming>, b: seq<OverlayTiming>, id: string)
    ensures TimingsFor(a + b, id) == TimingsFor(a, id) + TimingsFor(b, id)
    decreases |a|
  {
    if |a| == 0 {
      assert a + b == b;
    } else {
      assert (a + b)[1..] == a[1..] + b;
      TimingsForAppend(a[1..], b, id);
    }
  }

  function PlacementOf(t: OverlayTiming): Placement {
    Placement(t.segmentId, t.startTime, t.duration)
  }

  function Placements(ts: seq<OverlayTiming>, id: string): (r: seq<Placement>)
    ensures |r| == |TimingsFor(ts, id)|
    ensures forall j :: 0 <= j < |r| ==> r[j] == PlacementOf(TimingsFor(ts, id)[j])
  {
    var f := TimingsFor(ts, id);
    seq(|f|, j requires 0 <= j < |f| => PlacementOf(f[j]))
  }

  /** `exportTimeline(timeline, overlayTimings)` of the domain services. */
  function ExportTimeline(tl: Timeline, ts: seq<OverlayTiming>): (r: TimelineExport)
    ensures |r.segments| == |tl.segments|
    ensures forall i :: 0 <= i < |tl.segments| ==>
              r.segments[i] == SegmentSpan(tl.segments[i].id, tl.segments[i].startTime, tl.segments[i].duration)
    ensures |r.overlays| == |tl.overlays|
    ensures forall i :: 0 <= i < |tl.overlays| ==>
              && r.overlays[i].id == tl.overlays[i].id && r.overlays[i].text == tl.overlays[i].text
              && r.overlays[i].geometry == tl.overlays[i].geometry
              && r.overlays[i].placements == Placements(ts, tl.overlays[i].id)
  {
    TimelineExport(
      seq(|tl.segments|, i requires 0 <= i < |tl.segments| =>
        SegmentSpan(tl.segments[i].id, tl.segments[i].startTime, tl.segments[i].duration)),
      seq(|tl.overlays|, i requires 0 <= i < |tl.overlays| =>
        OverlayExport(tl.overlays[i].id, tl.overlays[i].text, tl.overlays[i].geometry, Placements(ts, tl.overlays[i].id))))
  }

  /** An overlay's placements are exactly its own timings: each placement comes
      from a timing with the overlay's id, and each such timing is placed.
      Timings whose overlay is not on the timeline are therefore placed nowhere. */
  lemma PlacementsAreOwnTimings(ts: seq<OverlayTiming>, id: string)
    ensures forall j :: 0 <= j < |Placements(ts, id)| ==>
              exists k :: 0 <= k < |ts| && ts[k].overlayId == id && PlacementOf(ts[k]) == Placements(ts, id)[j]
    ensures forall k :: 0 <= k < |ts| && ts[k].overlayId == id ==> PlacementOf(ts[k]) in Placements(ts, id)
  {
    var ps := Placements(ts, id);
    var f := TimingsFor(ts, id);
    forall j | 0 <= j < |ps|
      ensures exists k :: 0 <= k < |ts| && ts[k].overlayId == id && PlacementOf(ts[k]) == ps[j]
    {
      assert f[j] in f;
      var k :| 0 <= k < |ts| && ts[k] == f[j];
      assert ts[k].overlayId == id && PlacementOf(ts[k]) == ps[j];
    }
    assert forall j :: 0 <= j < |ps| ==> exists k :: 0 <= k < |ts| && ts[k].overlayId == id && PlacementOf(ts[k]) == ps[j];
    forall k | 0 <= k < |ts| && ts[k].overlayId == id
      ensures PlacementOf(ts[k]) in ps
    {
      assert ts[k] in f;
      var j :| 0 <= j < |f| && f[j] == ts[k];
      assert ps[j] == PlacementOf(ts[k]);
    }
  }

  /** Every overlay with no timing exports an empty placement list. */
  lemma NoTimingNoPlacements(tl: Timeline, ts: seq<OverlayTiming>, i: nat)
    requires i < |tl.overlays|
    requires forall k :: 0 <= k < |ts| ==> ts[k].overlayId != tl.overlays[i].id
    ensures ExportTimeline(tl, ts).overlays[i].placements == []
  {
    NoTimingsFor(ts, tl.overlays[i].id);
  }

  lemma {:induction false} NoTimingsFor(ts: seq<OverlayTiming>, id: string)
    requires forall k :: 0 <= k < |ts| ==> ts[k].overlayId != id
    ensures TimingsFor(ts, id) == []
    decreases |ts|
  {
    if |ts| > 0 {
      NoTimingsFor(ts[1..], id);
    }
  }

  /** `exportEditorState`: the segments, and under "overlays" the overlay
      timings (not the overlay entities). */
  datatype EditorStateExport = EditorStateExport(segments: seq<VideoSegment>, overlays: seq<OverlayTiming>)

  function ExportEditorState(s: EditorState): (r: EditorStateExport)
    ensures |r.segments| == |s.timeline.segments| && |r.overlays| == |s.overlayTimings|
    ensures forall i :: 0 <= i < |r.segments| ==> r.segments[i] == s.timeline.segments[i]
    ensures forall i :: 0 <= i < |r.overlays| ==> r.overlays[i] == s.overlayTimings[i]
  {
    EditorStateExport(
      seq(|s.timeline.segments|, i requires 0 <= i < |s.timeline.segments| =>
        var g := s.timeline.segments[i]; VideoSegment(g.id, g.source, g.startTime, g.duration)),
      seq(|s.overlayTimings|, i requires 0 <= i < |s.overlayTimings| =>
        var t := s.overlayTimings[i]; OverlayTiming(t.overlayId, t.segmentId, t.startTime, t.duration)))
  }

  /** The editor-state export ignores the playhead, playback and selection, and
      playback actions never change it. */
  lemma EditorStateExportIgnoresPlayback(s: EditorState, t: real, d: real)
    ensures forall s2: EditorState :: s2.timeline.segments == s.timeline.segments && s2.overlayTimings == s.overlayTimings
              ==> ExportEditorState(s2) == ExportEditorState(s)
    ensures ExportEditorState(EditorReducer.Reduce(s, SetTime(t))) == ExportEditorState(s)
    ensures ExportEditorState(EditorReducer.Reduce(s, Tick(d))) == ExportEditorState(s)
    ensures ExportEditorState(EditorReducer.Reduce(s, DeselectOverlay)) == ExportEditorState(s)
  {
  }

  datatype OverlaySummary = OverlaySummary(id: string, text: Option<string>, geometry: OverlayGeometry)
  datatype TimelineSummary = TimelineSummary(duration: real, segments: seq<VideoSegment>, overlays: seq<OverlaySummary>)

  /** `exportTimeline(state)` of the shared utilities: the cached duration, the
      segments, and each overlay's id, text and geometry only. */
  function ExportSummary(s: EditorState): (r: TimelineSummary)
    ensures r.duration == s.timeline.duration
    ensures r.segments == s.timeline.segments
    ensures |r.overlays| == |s.timeline.overlays|
    ensures forall i :: 0 <= i < |r.overlays| ==>
              r.overlays[i] == OverlaySummary(s.timeline.overlays[i].id, s.timeline.overlays[i].text, s.timeline.overlays[i].geometry)
  {
    var segs := seq(|s.timeline.segments|, i requires 0 <= i < |s.timeline.segments| =>
      var g := s.timeline.segments[i]; VideoSegment(g.id, g.source, g.startTime, g.duration));
    assert segs == s.timeline.segments;
    TimelineSummary(
      s.timeline.duration,
      segs,
      seq(|s.timeline.overlays|, i requires 0 <= i < |s.timeline.overlays| =>
        OverlaySummary(s.timeline.overlays[i].id, s.timeline.overlays[i].text, s.timeline.overlays[i].geometry)))
  }

  /** In a valid editor state the exported cached duration is the latest
      segment end, as the domain's duration computes it. */
  lemma SummaryDurationIsLatestEnd(s: EditorState)
    requires EditorInvariants.Valid(s)
    ensures ExportSummary(s).duration == TimelineCalc.CalcDuration(s.timeline.segments)
  {
    EditorInvariants.CalculateDurationAgrees(s.timeline.segments);
  }

  /** The domain export and the utility export agree on everything both carry. */
  lemma ExportsAgree(s: EditorState)
    ensures var a := ExportTimeline(s.timeline, s.overlayTimings);
            var b := ExportSummary(s);
            && |a.segments| == |b.segments| && |a.overlays| == |b.overlays|
            && (forall i :: 0 <= i < |a.segments| ==>
                  a.segments[i].id == b.segments[i].id && a.segments[i].start == b.segments[i].startTime
                  && a.segments[i].duration == b.segments[i].duration)
            && (forall i :: 0 <= i < |a.overlays| ==>
                  a.overlays[i].id == b.overlays[i].id && a.overlays[i].text == b.overlays[i].text
                  && a.overlays[i].geometry == b.overlays[i].geometry)
  {
  }
}

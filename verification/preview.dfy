/** Which overlays the video preview draws: those whose first timing places
    them under the playhead, plus the selected one, provided it has a timing on
    an existing segment. */
module Preview {
  import opened Wrappers
  import opened Entities
  import opened EditorState

  /** First timing of the overlay (`overlayTimings.find`). */
  function FirstTimingFor(ts: seq<OverlayTiming>, id: string): (r: Option<OverlayTiming>)
    ensures r.None? <==> forall k :: 0 <= k < |ts| ==> ts[k].overlayId != id
    ensures r.Some? ==> exists k :: 0 <= k < |ts| && ts[k] == r.value && ts[k].overlayId == id
                                    && forall j :: 0 <= j < k ==> ts[j].overlayId != id
  {
    if |ts| == 0 then None
    else if ts[0].overlayId == id then Some(ts[0])
    else
      var rest := FirstTimingFor(ts[1..], id);
      assert forall k :: 1 <= k < |ts| ==> ts[1..][k - 1] == ts[k];
      if rest.Some? then
        ghost var k :| 0 <= k < |ts| - 1 && ts[1..][k] == rest.value && ts[1..][k].overlayId == id
                       && forall j :: 0 <= j < k ==> ts[1..][j].overlayId != id;
        assert ts[k + 1] == rest.value;
        rest
      else rest
  }

  /** First segment with the id (`segments.find`). */
  function SegmentById(segs: seq<VideoSegment>, id: string): (r: Option<VideoSegment>)
    ensures r.None? <==> forall k :: 0 <= k < |segs| ==> segs[k].id != id
    ensures r.Some? ==> r.value in segs && r.value.id == id
  {
    if |segs| == 0 then None
    else if segs[0].id == id then Some(segs[0])
    else
      assert forall k :: 1 <= k < |segs| ==> segs[1..][k - 1] == segs[k];
      SegmentById(segs[1..], id)
  }

  /** The visibility rule of the preview's filter: an overlay needs a first
      timing on an existing segment, and then shows inside that timing's window
      or while selected. */
  predicate IsVisible(s: EditorState, o: Overlay): (b: bool)
    ensures b ==> FirstTimingFor(s.overlayTimings, o.id).Some?
                  && SegmentById(s.timeline.segments, FirstTimingFor(s.overlayTimings, o.id).value.segmentId).Some?
    ensures (&& FirstTimingFor(s.overlayTimings, o.id).Some?
             && SegmentById(s.timeline.segments, FirstTimingFor(s.overlayTimings, o.id).value.segmentId).Some?
             && s.selectedOverlayId == Some(o.id)) ==> b
  {
    match FirstTimingFor(s.overlayTimings, o.id)
    case None => false
    case Some(t) =>
      match SegmentById(s.timeline.segments, t.segmentId)
      case None => false
      case Some(seg) =>
        var start := seg.startTime + t.startTime;
        (start <= s.currentTime < start + t.duration) || s.selectedOverlayId == Some(o.id)
  }

  function FilterVisible(s: EditorState, os: seq<Overlay>): (r: seq<Overlay>)
    ensures |r| <= |os|
    ensures forall o :: o in r <==> o in os && IsVisible(s, o)
  {
    if |os| == 0 then []
    else
      assert forall o :: o in os <==> o == os[0] || o in os[1..];
      (if IsVisible(s, os[0]) then [os[0]] else []) + FilterVisible(s, os[1..])
  }

  /** The overlays the preview draws, in timeline order. */
  function VisibleOverlays(s: EditorState): (r: seq<Overlay>)
    ensures |r| <= |s.timeline.overlays|
    ensures forall o :: o in r <==> o in s.timeline.overlays && IsVisible(s, o)
  {
    FilterVisible(s, s.timeline.overlays)
  }

  /** The filter distributes over concatenation, so the visible list keeps the
      timeline's overlay order. */
  lemma {:induction false} FilterKeepsOrder(s: EditorState, a: seq<Overlay>, b: seq<Overlay>)
    ensures FilterVisible(s, a + b) == FilterVisible(s, a) + FilterVisible(s, b)
    decreases |a|
  {
    if |a| == 0 {
      assert a + b == b;
    } else {
      assert (a + b)[1..] == a[1..] + b;
      FilterKeepsOrder(s, a[1..], b);
    }
  }

  /** An overlay without a timing, or whose first timing names a missing
      segment, is never drawn, even when selected. */
  lemma HiddenWithoutPlacement(s: EditorState, o: Overlay)
    requires (forall k :: 0 <= k < |s.overlayTimings| ==> s.overlayTimings[k].overlayId != o.id)
             || (FirstTimingFor(s.overlayTimings, o.id).Some?
                 && forall k :: 0 <= k < |s.timeline.segments| ==>
                      s.timeline.segments[k].id != FirstTimingFor(s.overlayTimings, o.id).value.segmentId)
    ensures o !in VisibleOverlays(s)
  {
  }

  /** With a first timing on an existing segment, an overlay is drawn exactly
      when the playhead is inside the timing's half-open window, measured from
      the segment's start, or when it is selected. */
  lemma VisibleIff(s: EditorState, o: Overlay, k: nat, g: nat)
    requires k < |s.overlayTimings| && s.overlayTimings[k].overlayId == o.id
    requires forall j :: 0 <= j < k ==> s.overlayTimings[j].overlayId != o.id
    requires g < |s.timeline.segments| && s.timeline.segments[g].id == s.overlayTimings[k].segmentId
    requires forall j :: 0 <= j < g ==> s.timeline.segments[j].id != s.overlayTimings[k].segmentId
    requires o in s.timeline.overlays
    ensures var t := s.overlayTimings[k];
            var start := s.timeline.segments[g].startTime + t.startTime;
            o in VisibleOverlays(s) <==> (start <= s.currentTime < start + t.duration) || s.selectedOverlayId == Some(o.id)
  {
    FirstTimingAt(s.overlayTimings, o.id, k);
    SegmentByIdAt(s.timeline.segments, s.overlayTimings[k].segmentId, g);
  }

  lemma {:induction false} FirstTimingAt(ts: seq<OverlayTiming>, id: string, k: nat)
    requires k < |ts| && ts[k].overlayId == id
    requires forall j :: 0 <= j < k ==> ts[j].overlayId != id
    ensures FirstTimingFor(ts, id) == Some(ts[k])
  {
    if k > 0 {
      FirstTimingAt(ts[1..], id, k - 1);
    }
  }

  lemma {:induction false} SegmentByIdAt(segs: seq<VideoSegment>, id: string, g: nat)
    requires g < |segs| && segs[g].id == id
    requires forall j :: 0 <= j < g ==> segs[j].id != id
    ensures SegmentById(segs, id) == Some(segs[g])
  {
    if g > 0 {
      SegmentByIdAt(segs[1..], id, g - 1);
    }
  }

  /** Only the first timing of an overlay matters: timings after it are ignored. */
  lemma OnlyFirstTimingCounts(s: EditorState, o: Overlay, before: seq<OverlayTiming>, t: OverlayTiming, after: seq<OverlayTiming>)
    requires forall j :: 0 <= j < |before| ==> before[j].overlayId != o.id
    requires t.overlayId == o.id && s.overlayTimings == before + [t] + after
    ensures IsVisible(s, o) == IsVisible(s.(overlayTimings := [t]), o)
  {
    FirstTimingAt(s.overlayTimings, o.id, |before|);
    FirstTimingAt([t], o.id, 0);
  }
}

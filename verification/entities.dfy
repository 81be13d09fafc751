/** The entities of the editor's domain: video segments placed on a timeline,
    overlays drawn over the video, and the per-segment timing of an overlay. */
module Entities {
  import opened Wrappers

  /** A placement of one media source on the timeline, in seconds. */
  datatype VideoSegment = VideoSegment(id: string, source: string, startTime: real, duration: real)

  /** Overlay position and size as fractions of the video frame. */
  datatype OverlayGeometry = OverlayGeometry(x: real, y: real, width: real, height: real)

  datatype TextStyle = TextStyle(fontSize: real, color: string, backgroundColor: string, backgroundOpacity: real)

  datatype OverlayType = Text | Image

  datatype Overlay = Overlay(
    id: string,
    kind: OverlayType,
    content: Option<string>,
    geometry: OverlayGeometry,
    startTime: real,
    endTime: real,
    segmentIds: seq<string>,
    text: Option<string>,
    textStyle: Option<TextStyle>,
    imageSrc: Option<string>)

  /** Visible window of an overlay inside one segment; `startTime` is relative
      to the segment's own start. */
  datatype OverlayTiming = OverlayTiming(overlayId: string, segmentId: string, startTime: real, duration: real)

  datatype Timeline = Timeline(segments: seq<VideoSegment>, overlays: seq<Overlay>, duration: real)

  /** `Math.max` and `Math.min` on seconds. */
  function Max(a: real, b: real): real {
    if a >= b then a else b
  }

  function Min(a: real, b: real): real {
    if a <= b then a else b
  }

  /** The exclusive end of a segment's half-open interval. */
  function SegmentEnd(s: VideoSegment): real {
    s.startTime + s.duration
  }

  /** Every segment starts at or after the end of the one before it. */
  ghost predicate NonOverlapping(segs: seq<VideoSegment>) {
    forall i :: 0 < i < |segs| ==> SegmentEnd(segs[i - 1]) <= segs[i].startTime
  }

  /** Start times never decrease along the sequence. */
  ghost predicate SortedByStart(segs: seq<VideoSegment>) {
    forall i, j :: 0 <= i < j < |segs| ==> segs[i].startTime <= segs[j].startTime
  }

  ghost predicate NonNegativeDurations(segs: seq<VideoSegment>) {
    forall i :: 0 <= i < |segs| ==> segs[i].duration >= 0.0
  }

  /** The shape every stored segment keeps: non-negative start, positive duration. */
  ghost predicate WellFormedSegments(segs: seq<VideoSegment>) {
    forall i :: 0 <= i < |segs| ==> segs[i].startTime >= 0.0 && segs[i].duration > 0.0
  }

  /** Some segment carries the id. */
  ghost predicate HasId(segs: seq<VideoSegment>, id: string) {
    exists i :: 0 <= i < |segs| && segs[i].id == id
  }

  /** No two segments share an id (ids come from a UUID generator). */
  ghost predicate UniqueIds(segs: seq<VideoSegment>) {
    forall i, j :: 0 <= i < j < |segs| ==> segs[i].id != segs[j].id
  }

  /** With non-negative durations, a non-overlapping sequence is sorted by start. */
  lemma {:induction false} NonOverlappingIsSorted(segs: seq<VideoSegment>)
    requires NonOverlapping(segs) && NonNegativeDurations(segs)
    ensures SortedByStart(segs)
  {
    forall i, j | 0 <= i < j < |segs|
      ensures segs[i].startTime <= segs[j].startTime
    {
      var k := i;
      while k < j
        invariant i <= k <= j
        invariant segs[i].startTime <= segs[k].startTime
      {
        k := k + 1;
      }
    }
  }
}

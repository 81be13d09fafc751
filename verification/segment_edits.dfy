/** Segment edits driven by dragging a segment's edges or body on the timeline. */
module SegmentEdits {
  import opened Wrappers
  import opened Entities
  import opened SegmentSort
  import opened Normalize

  datatype Edge = StartEdge | EndEdge

  /** The per-segment update of a resize, before collisions are resolved. A change
      is rejected (the segment is kept) when it would leave a non-positive duration. */
  function ResizeOne(seg: VideoSegment, id: string, delta: real, edge: Edge): (r: VideoSegment)
    ensures r.id == seg.id && r.source == seg.source
    ensures r != seg ==> seg.id == id && r.duration > 0.0
    ensures seg.duration > 0.0 ==> r.duration > 0.0
    ensures seg.startTime >= 0.0 ==> r.startTime >= 0.0
    ensures edge == StartEdge ==> SegmentEnd(r) == SegmentEnd(seg)
    ensures edge == EndEdge ==> r.startTime == seg.startTime
  {
    if seg.id != id then seg
    else match edge
      case StartEdge =>
        var newStart := Max(0.0, seg.startTime + delta);
        var newDuration := seg.duration - (newStart - seg.startTime);
        if newDuration <= 0.0 then seg
        else seg.(startTime := newStart, duration := newDuration)
      case EndEdge =>
        var newDuration := seg.duration + delta;
        if newDuration <= 0.0 then seg
        else seg.(duration := newDuration)
  }

  /** The exact edge arithmetic: the start edge moves to `max(0, start + delta)`,
      the end edge adds `delta` to the duration, each unless that leaves a
      non-positive duration. */
  lemma ResizeOneEdges(seg: VideoSegment, delta: real)
    ensures var ns := Max(0.0, seg.startTime + delta);
            var r := ResizeOne(seg, seg.id, delta, StartEdge);
            if seg.duration - (ns - seg.startTime) > 0.0 then r.startTime == ns
            else r == seg
    ensures var r := ResizeOne(seg, seg.id, delta, EndEdge);
            if seg.duration + delta > 0.0 then r.duration == seg.duration + delta
            else r == seg
  {
  }

  function ResizeEach(segs: seq<VideoSegment>, id: string, delta: real, edge: Edge): (r: seq<VideoSegment>)
    ensures |r| == |segs|
    ensures forall i :: 0 <= i < |segs| ==> r[i] == ResizeOne(segs[i], id, delta, edge)
  {
    seq(|segs|, i requires 0 <= i < |segs| => ResizeOne(segs[i], id, delta, edge))
  }

  /** `resizeSegment`: the target is resized, then the list is normalized, so
      it is free of overlaps. Up to start times the result is a permutation of
      the per-segment resize, element by element the stable-sorted resized list
      with starts only moved forward; well-formed segments stay well-formed. */
  function ResizeSegment(segs: seq<VideoSegment>, id: string, delta: real, edge: Edge): (r: seq<VideoSegment>)
    ensures |r| == |segs|
    ensures NonOverlapping(r)
    ensures WellFormedSegments(segs) ==> WellFormedSegments(r)
    ensures multiset(Shapes(r)) == multiset(Shapes(ResizeEach(segs, id, delta, edge)))
    ensures forall i :: 0 <= i < |r| ==>
              var o := SortByStart(ResizeEach(segs, id, delta, edge))[i];
              r[i] == o.(startTime := r[i].startTime) && o.startTime <= r[i].startTime
  {
    var updated := ResizeEach(segs, id, delta, edge);
    NormalizeKeepsWellFormed(updated);
    NormalizeKeepsShapes(updated);
    NormalizeSegments(updated)
  }

  /** Only the target's shape can change in a resize: every other segment keeps
      its id, source and duration, and the target keeps its id and source. */
  lemma ResizeKeepsOtherShapes(segs: seq<VideoSegment>, id: string, delta: real, edge: Edge)
    ensures forall i :: 0 <= i < |segs| && segs[i].id != id ==>
              Shape(segs[i]) in multiset(Shapes(ResizeSegment(segs, id, delta, edge)))
    ensures forall i :: 0 <= i < |segs| ==>
              Shape(segs[i]).(duration := ResizeEach(segs, id, delta, edge)[i].duration)
                in multiset(Shapes(ResizeSegment(segs, id, delta, edge)))
  {
    var u := ResizeEach(segs, id, delta, edge);
    forall i | 0 <= i < |segs|
      ensures Shape(segs[i]).(duration := u[i].duration) in multiset(Shapes(ResizeSegment(segs, id, delta, edge)))
    {
      assert Shapes(u)[i] == Shape(u[i]) == Shape(segs[i]).(duration := u[i].duration);
      assert Shapes(u)[i] in multiset(Shapes(u));
    }
  }

  /** A resize naming no segment only normalizes. */
  lemma ResizeUnknownId(segs: seq<VideoSegment>, id: string, delta: real, edge: Edge)
    requires forall i :: 0 <= i < |segs| ==> segs[i].id != id
    ensures ResizeSegment(segs, id, delta, edge) == NormalizeSegments(segs)
  {
    assert ResizeEach(segs, id, delta, edge) == segs;
  }

  /** Worked example: shortening A's end by 2 on [A 0/5, B 5/5] leaves B at 5. */
  lemma ResizeExample(a: VideoSegment, b: VideoSegment)
    requires a.startTime == 0.0 && a.duration == 5.0 && b.startTime == 5.0 && b.duration == 5.0
    requires a.id != b.id
    ensures ResizeSegment([a, b], a.id, -2.0, EndEdge) == [a.(duration := 3.0), b]
  {
    var updated := ResizeEach([a, b], a.id, -2.0, EndEdge);
    assert updated == [a.(duration := 3.0), b];
    NormalizeFixesNormalized(updated);
  }

  /** Index of the first segment with the given id (`findIndex`). */
  function FindIndex(segs: seq<VideoSegment>, id: string): (r: Option<nat>)
    ensures r.None? <==> forall i :: 0 <= i < |segs| ==> segs[i].id != id
    ensures r.Some? ==> r.value < |segs| && segs[r.value].id == id
                        && forall i :: 0 <= i < r.value ==> segs[i].id != id
  {
    if |segs| == 0 then None
    else if segs[0].id == id then Some(0)
    else
      var rest := FindIndex(segs[1..], id);
      assert forall i :: 1 <= i < |segs| ==> segs[1..][i - 1] == segs[i];
      if rest.Some? then Some(rest.value + 1) else None
  }

  /** The clamp chain of a move: to 0, then past the previous segment's end,
      then before the next segment's start; absent neighbours are skipped. */
  function ClampMove(proposed: real, duration: real, prevEnd: Option<real>, nextStart: Option<real>): (r: real)
    ensures nextStart.Some? ==> r <= nextStart.value - duration
    ensures var lower := Max(0.0, prevEnd.GetOr(0.0));
            var fits := nextStart.None? || lower <= nextStart.value - duration;
            && (fits ==> lower <= r)
            && (fits && lower <= proposed && (nextStart.None? || proposed <= nextStart.value - duration) ==> r == proposed)
            && (fits && proposed < lower ==> r == lower)
  {
    var atLeastZero := if proposed < 0.0 then 0.0 else proposed;
    var afterPrev := if prevEnd.Some? && atLeastZero < prevEnd.value then prevEnd.value else atLeastZero;
    if nextStart.Some? && afterPrev > nextStart.value - duration then nextStart.value - duration else afterPrev
  }

  /** Every segment carrying `id` takes the start `newStart`; the rest are copied. */
  function SetStartOf(segs: seq<VideoSegment>, id: string, newStart: real): (r: seq<VideoSegment>)
    ensures |r| == |segs|
    ensures forall i :: 0 <= i < |segs| ==>
              r[i] == if segs[i].id == id then segs[i].(startTime := newStart) else segs[i]
  {
    seq(|segs|, i requires 0 <= i < |segs| =>
      if segs[i].id == id then segs[i].(startTime := newStart) else segs[i])
  }

  /** The move on a list already in start order: None when no segment has the
      id; otherwise the first segment with the id is clamped between its
      neighbours, every segment carrying that id takes the new start, and all
      other segments are copied. */
  function MoveInOrder(sorted: seq<VideoSegment>, id: string, delta: real): (r: Option<seq<VideoSegment>>)
    ensures r.None? <==> !HasId(sorted, id)
    ensures r.Some? ==> |r.value| == |sorted|
    ensures r.Some? ==> forall i :: 0 <= i < |sorted| ==>
              r.value[i] == sorted[i].(startTime := r.value[i].startTime)
              && (sorted[i].id != id ==> r.value[i] == sorted[i])
  {
    match FindIndex(sorted, id)
    case None => None
    case Some(k) =>
      var seg := sorted[k];
      var prevEnd := if k > 0 then Some(SegmentEnd(sorted[k - 1])) else None;
      var nextStart := if k + 1 < |sorted| then Some(sorted[k + 1].startTime) else None;
      var newStart := ClampMove(seg.startTime + delta, seg.duration, prevEnd, nextStart);
      Some(SetStartOf(sorted, id, newStart))
  }

  /** The moved segment's new start is the clamp of `start + delta` between its
      start-ordered neighbours. */
  lemma MoveInOrderStart(sorted: seq<VideoSegment>, id: string, delta: real, k: nat)
    requires FindIndex(sorted, id) == Some(k)
    ensures var prevEnd := if k > 0 then Some(SegmentEnd(sorted[k - 1])) else None;
            var nextStart := if k + 1 < |sorted| then Some(sorted[k + 1].startTime) else None;
            MoveInOrder(sorted, id, delta)
              == Some(SetStartOf(sorted, id, ClampMove(sorted[k].startTime + delta, sorted[k].duration, prevEnd, nextStart)))
  {
  }

  /** `moveSegment` of the shared utilities: sort by start, move, and copy
      overlays and the cached duration; an unknown id returns the timeline as given. */
  function MoveSegment(timeline: Timeline, id: string, delta: real): (r: Timeline)
    ensures !HasId(timeline.segments, id) ==> r == timeline
    ensures r.overlays == timeline.overlays && r.duration == timeline.duration
    ensures |r.segments| == |timeline.segments|
    ensures HasId(timeline.segments, id) ==>
              MoveInOrder(SortByStart(timeline.segments), id, delta) == Some(r.segments)
  {
    SortKeepsIds(timeline.segments, id);
    match MoveInOrder(SortByStart(timeline.segments), id, delta)
    case None => timeline
    case Some(segs) => timeline.(segments := segs)
  }

  /** Re-placing one segment of a non-overlapping list inside the gap between its
      neighbours keeps the list non-overlapping and leaves the others alone. */
  lemma SetStartInGap(segs: seq<VideoSegment>, k: nat, newStart: real)
    requires NonOverlapping(segs) && UniqueIds(segs) && k < |segs|
    requires k > 0 ==> SegmentEnd(segs[k - 1]) <= newStart
    requires k + 1 < |segs| ==> newStart + segs[k].duration <= segs[k + 1].startTime
    ensures var r := SetStartOf(segs, segs[k].id, newStart);
            && NonOverlapping(r)
            && forall i :: 0 <= i < |r| && i != k ==> r[i] == segs[i]
  {
    var r := SetStartOf(segs, segs[k].id, newStart);
    forall i | 0 <= i < |r| && i != k
      ensures r[i] == segs[i]
    {
      assert segs[i].id != segs[k].id;
    }
    forall i | 0 < i < |r|
      ensures SegmentEnd(r[i - 1]) <= r[i].startTime
    {
      if i != k && i - 1 != k {
        assert SegmentEnd(segs[i - 1]) <= segs[i].startTime;
      }
    }
  }

  /** A segment that already sits in its gap can always be clamped back into it. */
  lemma ClampStaysInGap(segs: seq<VideoSegment>, k: nat, delta: real)
    requires NonOverlapping(segs) && k < |segs| && segs[k].startTime >= 0.0
    ensures var prevEnd := if k > 0 then Some(SegmentEnd(segs[k - 1])) else None;
            var nextStart := if k + 1 < |segs| then Some(segs[k + 1].startTime) else None;
            var newStart := ClampMove(segs[k].startTime + delta, segs[k].duration, prevEnd, nextStart);
            && (k > 0 ==> SegmentEnd(segs[k - 1]) <= newStart)
            && (k + 1 < |segs| ==> newStart + segs[k].duration <= segs[k + 1].startTime)
  {
    var seg := segs[k];
    var prevEnd := if k > 0 then Some(SegmentEnd(segs[k - 1])) else None;
    var nextStart := if k + 1 < |segs| then Some(segs[k + 1].startTime) else None;
    var lower := Max(0.0, prevEnd.GetOr(0.0));
    assert lower <= seg.startTime by {
      if k > 0 {
        assert SegmentEnd(segs[k - 1]) <= seg.startTime;
      }
    }
    if k + 1 < |segs| {
      assert SegmentEnd(seg) <= segs[k + 1].startTime;
    }
  }

  /** On a sorted, non-overlapping timeline with non-negative starts and unique
      ids, a move changes only the moved segment, within the gap between its
      neighbours, so the timeline stays non-overlapping. */
  lemma MoveKeepsNonOverlapping(timeline: Timeline, id: string, delta: real, k: nat)
    requires NonOverlapping(timeline.segments) && NonNegativeDurations(timeline.segments)
    requires UniqueIds(timeline.segments)
    requires forall i :: 0 <= i < |timeline.segments| ==> timeline.segments[i].startTime >= 0.0
    requires k < |timeline.segments| && timeline.segments[k].id == id
    ensures var r := MoveSegment(timeline, id, delta).segments;
            && NonOverlapping(r)
            && forall i :: 0 <= i < |r| && i != k ==> r[i] == timeline.segments[i]
  {
    var segs := timeline.segments;
    assert FindIndex(segs, id) == Some(k);
    NonOverlappingIsSorted(segs);
    SortedIsFixpoint(segs);
    MoveInOrderStart(segs, id, delta, k);
    ClampStaysInGap(segs, k, delta);
    var prevEnd := if k > 0 then Some(SegmentEnd(segs[k - 1])) else None;
    var nextStart := if k + 1 < |segs| then Some(segs[k + 1].startTime) else None;
    SetStartInGap(segs, k, ClampMove(segs[k].startTime + delta, segs[k].duration, prevEnd, nextStart));
  }
}

/** Mapping a global timeline time to the segment that plays it and the local
    time inside that segment. */
module SegmentResolver {
  import opened Wrappers
  import opened Entities

  datatype SegmentTimeMapping = SegmentTimeMapping(segment: VideoSegment, localTime: real)

  /** Segment `s` covers time `t` on its half-open interval [start, end). */
  predicate Contains(s: VideoSegment, t: real) {
    s.startTime <= t < SegmentEnd(s)
  }

  /** First segment in list order whose interval contains `t`, with the local time. */
  function MapTimelineToSegment(t: real, segs: seq<VideoSegment>): (r: Option<SegmentTimeMapping>)
    ensures r.None? <==> forall i :: 0 <= i < |segs| ==> !Contains(segs[i], t)
    ensures r.Some? ==> exists k :: 0 <= k < |segs| && segs[k] == r.value.segment
                          && Contains(segs[k], t)
                          && forall i :: 0 <= i < k ==> !Contains(segs[i], t)
    ensures r.Some? ==> r.value.localTime == t - r.value.segment.startTime
                        && 0.0 <= r.value.localTime < r.value.segment.duration
  {
    if |segs| == 0 then None
    else if Contains(segs[0], t) then Some(SegmentTimeMapping(segs[0], t - segs[0].startTime))
    else
      var rest := MapTimelineToSegment(t, segs[1..]);
      assert forall i :: 1 <= i < |segs| ==> segs[1..][i - 1] == segs[i];
      if rest.Some? then
        ghost var k :| 0 <= k < |segs| - 1 && segs[1..][k] == rest.value.segment
                       && Contains(segs[1..][k], t)
                       && forall i :: 0 <= i < k ==> !Contains(segs[1..][i], t);
        assert segs[k + 1] == rest.value.segment;
        rest
      else rest
  }

  /** The playback-facing wrapper: an explicit empty-list guard, then delegation. */
  function ResolveActiveSegment(t: real, segs: seq<VideoSegment>): (r: Option<SegmentTimeMapping>)
    ensures |segs| == 0 ==> r.None?
    ensures r.Some? ==> r.value.segment in segs
                        && 0.0 <= r.value.localTime < r.value.segment.duration
  {
    if |segs| == 0 then None else MapTimelineToSegment(t, segs)
  }

  /** The guard changes nothing: the wrapper agrees with the lookup on every list. */
  lemma ResolveAgreesWithMap(t: real, segs: seq<VideoSegment>)
    ensures ResolveActiveSegment(t, segs) == MapTimelineToSegment(t, segs)
  {
  }

  /** `segments.find(...)` with the same half-open predicate, returning the segment only. */
  function FindActiveSegment(segs: seq<VideoSegment>, t: real): (r: Option<VideoSegment>)
    ensures r.None? <==> forall i :: 0 <= i < |segs| ==> !Contains(segs[i], t)
    ensures r.Some? ==> r.value in segs && Contains(r.value, t)
  {
    if |segs| == 0 then None
    else if Contains(segs[0], t) then Some(segs[0])
    else
      assert forall i :: 1 <= i < |segs| ==> segs[1..][i - 1] == segs[i];
      FindActiveSegment(segs[1..], t)
  }

  /** Both lookups select the same segment. */
  lemma {:induction false} FindAgreesWithMap(segs: seq<VideoSegment>, t: real)
    ensures FindActiveSegment(segs, t).None? <==> MapTimelineToSegment(t, segs).None?
    ensures FindActiveSegment(segs, t).Some? ==>
              FindActiveSegment(segs, t).value == MapTimelineToSegment(t, segs).value.segment
  {
    if |segs| > 0 && !Contains(segs[0], t) {
      FindAgreesWithMap(segs[1..], t);
    }
  }

  /** The end of the interval is exclusive: a segment never plays at its own end. */
  lemma EndIsExclusive(segs: seq<VideoSegment>, k: nat)
    requires k < |segs|
    ensures var r := MapTimelineToSegment(SegmentEnd(segs[k]), segs);
            r.Some? ==> r.value.segment.startTime + r.value.segment.duration != SegmentEnd(segs[k])
  {
  }

  /** On a non-overlapping list a segment ends no later than any later segment starts. */
  lemma EndBeforeLaterStart(segs: seq<VideoSegment>, i: nat, j: nat)
    requires NonOverlapping(segs) && NonNegativeDurations(segs)
    requires i < j < |segs|
    ensures SegmentEnd(segs[i]) <= segs[j].startTime
  {
    NonOverlappingIsSorted(segs);
    assert SegmentEnd(segs[i]) <= segs[i + 1].startTime;
  }

  /** On a non-overlapping list at most one segment contains any time, so the
      first match is the unique match. */
  lemma UniqueContainer(segs: seq<VideoSegment>, t: real, i: nat, j: nat)
    requires NonOverlapping(segs) && NonNegativeDurations(segs)
    requires i < |segs| && j < |segs|
    requires Contains(segs[i], t) && Contains(segs[j], t)
    ensures i == j
  {
    if i < j {
      EndBeforeLaterStart(segs, i, j);
    } else if j < i {
      EndBeforeLaterStart(segs, j, i);
    }
  }

  /** On a non-overlapping list the lookup returns the unique segment containing `t`. */
  lemma ResolverCorrect(segs: seq<VideoSegment>, t: real, k: nat)
    requires NonOverlapping(segs) && NonNegativeDurations(segs)
    requires k < |segs| && Contains(segs[k], t)
    ensures MapTimelineToSegment(t, segs) == Some(SegmentTimeMapping(segs[k], t - segs[k].startTime))
  {
    var r := MapTimelineToSegment(t, segs);
    var m :| 0 <= m < |segs| && segs[m] == r.value.segment && Contains(segs[m], t)
             && forall i :: 0 <= i < m ==> !Contains(segs[i], t);
    UniqueContainer(segs, t, m, k);
  }

  /** The worked example: A covers [0, 5), B covers [5, 10). */
  lemma TwoSegmentExample(a: VideoSegment, b: VideoSegment)
    requires a.startTime == 0.0 && a.duration == 5.0
    requires b.startTime == 5.0 && b.duration == 5.0
    ensures MapTimelineToSegment(4.0, [a, b]) == Some(SegmentTimeMapping(a, 4.0))
    ensures MapTimelineToSegment(6.0, [a, b]) == Some(SegmentTimeMapping(b, 1.0))
    ensures MapTimelineToSegment(11.0, [a, b]) == None
  {
    assert [a, b][1..] == [b];
  }
}

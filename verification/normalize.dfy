/** Overlap removal: stable sort by start, then walk left to right pushing each
    segment's start forward to the end of the (already pushed) previous one. */
module Normalize {
  import opened Entities
  import opened SegmentSort

  /** One step of the walk: `s` moves to `prevEnd` only if it starts before it. */
  function PushPast(s: VideoSegment, prevEnd: real): VideoSegment {
    if s.startTime < prevEnd then s.(startTime := prevEnd) else s
  }

  /** The forward walk of the loop, applied to an already sorted sequence. Only
      start times change: each moves to `max(start, previous pushed end)`. */
  function PushForward(t: seq<VideoSegment>): (r: seq<VideoSegment>)
    ensures |r| == |t|
    ensures |t| > 0 ==> r[0] == t[0]
    ensures forall i :: 0 < i < |t| ==> r[i] == PushPast(t[i], SegmentEnd(r[i - 1]))
  {
    if |t| <= 1 then t
    else
      var init := PushForward(t[..|t| - 1]);
      init + [PushPast(t[|t| - 1], SegmentEnd(init[|init| - 1]))]
  }

  /** `normalizeSegments`: the result is the stable sort of the input with only
      start times moved forward, never overlapping, each moved segment landing
      exactly at its predecessor's end. */
  function NormalizeSegments(s: seq<VideoSegment>): (r: seq<VideoSegment>)
    ensures |r| == |s|
    ensures NonOverlapping(r)
    ensures forall i :: 0 <= i < |r| ==>
              var o := SortByStart(s)[i];
              r[i] == o.(startTime := r[i].startTime) && o.startTime <= r[i].startTime
    ensures forall i :: 0 < i < |r| && r[i].startTime != SortByStart(s)[i].startTime ==>
              r[i].startTime == SegmentEnd(r[i - 1])
    ensures |r| > 0 ==> r[0] == SortByStart(s)[0]
  {
    var t := SortByStart(s);
    var r := PushForward(t);
    forall i | 0 < i < |r|
      ensures r[i] == t[i].(startTime := r[i].startTime) && t[i].startTime <= r[i].startTime
      ensures SegmentEnd(r[i - 1]) <= r[i].startTime
      ensures r[i].startTime != t[i].startTime ==> r[i].startTime == SegmentEnd(r[i - 1])
    {
      assert r[i] == PushPast(t[i], SegmentEnd(r[i - 1]));
      if t[i].startTime >= SegmentEnd(r[i - 1]) {
        assert r[i] == t[i];
      }
    }
    r
  }

  /** With non-negative durations the output is also sorted by start. */
  lemma NormalizedIsSorted(s: seq<VideoSegment>)
    requires NonNegativeDurations(s)
    ensures SortedByStart(NormalizeSegments(s))
  {
    var r := NormalizeSegments(s);
    SortMembers(s);
    assert NonNegativeDurations(r) by {
      forall i | 0 <= i < |r|
        ensures r[i].duration >= 0.0
      {
        assert SortByStart(s)[i] in s;
      }
    }
    NonOverlappingIsSorted(r);
  }

  /** The output is a permutation of the input up to start times: every segment
      keeps its id, source and duration, and starts no earlier than before. */
  lemma NormalizeKeepsSegments(s: seq<VideoSegment>)
    ensures forall i :: 0 <= i < |s| ==>
              exists j :: 0 <= j < |s| && NormalizeSegments(s)[i] == s[j].(startTime := NormalizeSegments(s)[i].startTime)
                          && s[j].startTime <= NormalizeSegments(s)[i].startTime
  {
    SortMembers(s);
    var r := NormalizeSegments(s);
    forall i | 0 <= i < |s|
      ensures exists j :: 0 <= j < |s| && r[i] == s[j].(startTime := r[i].startTime) && s[j].startTime <= r[i].startTime
    {
      var o := SortByStart(s)[i];
      assert o in s;
      var j :| 0 <= j < |s| && s[j] == o;
    }
  }

  /** Well-formed segments (non-negative starts, positive durations) stay well-formed. */
  lemma NormalizeKeepsWellFormed(s: seq<VideoSegment>)
    ensures WellFormedSegments(s) ==> WellFormedSegments(NormalizeSegments(s))
  {
    SortMembers(s);
    var r := NormalizeSegments(s);
    if WellFormedSegments(s) {
      forall i | 0 <= i < |s|
        ensures r[i].startTime >= 0.0 && r[i].duration > 0.0
      {
        assert SortByStart(s)[i] in s;
      }
    }
  }

  /** The walk leaves a non-overlapping sequence alone. */
  lemma {:induction false} PushForwardFixesNonOverlapping(t: seq<VideoSegment>)
    requires NonOverlapping(t)
    ensures PushForward(t) == t
  {
    if |t| > 1 {
      var init := t[..|t| - 1];
      assert NonOverlapping(init);
      PushForwardFixesNonOverlapping(init);
      assert t == init + [t[|t| - 1]];
    }
  }

  /** Input that is already non-overlapping (hence sorted, with non-negative
      durations) comes back unchanged; empty and singleton lists always do. */
  lemma NormalizeFixesNormalized(s: seq<VideoSegment>)
    requires NonOverlapping(s) && NonNegativeDurations(s)
    ensures NormalizeSegments(s) == s
  {
    NonOverlappingIsSorted(s);
    SortedIsFixpoint(s);
    PushForwardFixesNonOverlapping(s);
  }

  /** Idempotence for non-negative durations. */
  lemma NormalizeIdempotent(s: seq<VideoSegment>)
    requires NonNegativeDurations(s)
    ensures NormalizeSegments(NormalizeSegments(s)) == NormalizeSegments(s)
  {
    var r := NormalizeSegments(s);
    SortMembers(s);
    forall i | 0 <= i < |r|
      ensures r[i].duration >= 0.0
    {
      assert SortByStart(s)[i] in s;
    }
    NormalizeFixesNormalized(r);
  }

  /** With a negative duration the walk can leave starts out of order, and a
      second normalization then moves segments again: idempotence needs
      non-negative durations. */
  lemma NegativeDurationBreaksIdempotence()
    ensures var s := [VideoSegment("a", "", 0.0, 10.0), VideoSegment("b", "", 1.0, -5.0),
                      VideoSegment("c", "", 2.0, 1.0)];
            NormalizeSegments(NormalizeSegments(s)) != NormalizeSegments(s)
  {
    var a, b, c := VideoSegment("a", "", 0.0, 10.0), VideoSegment("b", "", 1.0, -5.0),
                   VideoSegment("c", "", 2.0, 1.0);
    var b', c' := b.(startTime := 10.0), c.(startTime := 5.0);
    FirstPass(a, b, c);
    SecondSort(a, b', c');
    assert NormalizeSegments(NormalizeSegments([a, b, c]))[1].id == "c";
  }

  lemma FirstPass(a: VideoSegment, b: VideoSegment, c: VideoSegment)
    requires a.startTime == 0.0 && a.duration == 10.0
    requires b.startTime == 1.0 && b.duration == -5.0 && c.startTime == 2.0
    ensures NormalizeSegments([a, b, c]) == [a, b.(startTime := 10.0), c.(startTime := 5.0)]
  {
    var s := [a, b, c];
    assert SortedByStart(s);
    SortedIsFixpoint(s);
    var r := PushForward(s);
    assert r[0] == a;
    assert r[1] == PushPast(b, 10.0) == b.(startTime := 10.0);
    assert SegmentEnd(r[1]) == 5.0;
    assert r[2] == PushPast(c, 5.0) == c.(startTime := 5.0);
    assert NormalizeSegments(s) == r;
  }

  lemma SecondSort(a: VideoSegment, b: VideoSegment, c: VideoSegment)
    requires a.startTime == 0.0 && b.startTime == 10.0 && c.startTime == 5.0
    ensures SortByStart([a, b, c]) == [a, c, b]
  {
    assert [a, b, c][..2] == [a, b];
    assert [a, b][..1] == [a];
    assert SortByStart([a]) == [a];
    assert SortByStart([a, b]) == InsertByStart(b, [a]) == [a, b];
    assert [a, b][1..] == [b];
    assert InsertByStart(c, [b]) == [c, b];
    assert InsertByStart(c, [a, b]) == [a, c, b];
  }

  /** Normalization is a permutation up to start times: the bag of (id, source,
      duration) shapes is exactly the input's. */
  lemma NormalizeKeepsShapes(s: seq<VideoSegment>)
    ensures multiset(Shapes(NormalizeSegments(s))) == multiset(Shapes(s))
  {
    var r := NormalizeSegments(s);
    assert Shapes(r) == Shapes(SortByStart(s));
    PermutationKeepsShapes(SortByStart(s), s);
  }
}

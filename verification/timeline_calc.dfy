/** Total timeline length: the latest segment end, folded from 0. */
module TimelineCalc {
  import opened Entities

  /** `segments.reduce((a, b) => max(a, end(b)), 0)`, folded left to right. */
  function CalcDuration(segs: seq<VideoSegment>): (r: real)
    ensures r >= 0.0
    ensures forall i :: 0 <= i < |segs| ==> SegmentEnd(segs[i]) <= r
    ensures r == 0.0 || exists i :: 0 <= i < |segs| && r == SegmentEnd(segs[i])
  {
    if |segs| == 0 then 0.0
    else
      var acc := CalcDuration(segs[..|segs| - 1]);
      var last := SegmentEnd(segs[|segs| - 1]);
      assert forall i :: 0 <= i < |segs| - 1 ==> segs[..|segs| - 1][i] == segs[i];
      if acc >= last then acc else last
  }

  /** When some segment ends at or after 0, the result is the maximum segment end. */
  lemma CalcDurationIsMaxEnd(segs: seq<VideoSegment>, k: nat)
    requires k < |segs| && SegmentEnd(segs[k]) >= 0.0
    ensures exists i :: 0 <= i < |segs| && CalcDuration(segs) == SegmentEnd(segs[i])
  {
    var r := CalcDuration(segs);
    if r == 0.0 {
      assert SegmentEnd(segs[k]) <= r;
    }
  }

  /** The duration depends only on which segments occur, not on their order
      or repetition. */
  lemma CalcDurationOrderIndependent(a: seq<VideoSegment>, b: seq<VideoSegment>)
    requires forall x :: x in a <==> x in b
    ensures CalcDuration(a) == CalcDuration(b)
  {
    var ra, rb := CalcDuration(a), CalcDuration(b);
    if ra != 0.0 {
      var i :| 0 <= i < |a| && ra == SegmentEnd(a[i]);
      assert a[i] in b;
      var j :| 0 <= j < |b| && b[j] == a[i];
      assert ra <= rb;
    }
    if rb != 0.0 {
      var j :| 0 <= j < |b| && rb == SegmentEnd(b[j]);
      assert b[j] in a;
      var i :| 0 <= i < |a| && a[i] == b[j];
      assert rb <= ra;
    }
  }
}

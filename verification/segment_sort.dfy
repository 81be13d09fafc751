/** The stable ascending sort by start time that `[...segments].sort((a, b) =>
    a.startTime - b.startTime)` performs (JavaScript's sort is stable). */
module SegmentSort {
  import opened Entities

  /** Places `x` just before the first element of `s` that starts strictly later,
      that is, after every element starting at or before `x`. */
  function InsertByStart(x: VideoSegment, s: seq<VideoSegment>): (r: seq<VideoSegment>)
    ensures |r| == |s| + 1
    ensures multiset(r) == multiset(s) + multiset{x}
  {
    if |s| == 0 then [x]
    else if x.startTime < s[0].startTime then [x] + s
    else
      assert s == [s[0]] + s[1..];
      [s[0]] + InsertByStart(x, s[1..])
  }

  /** Inserting into a sorted sequence keeps it sorted. */
  lemma {:induction false} InsertKeepsSorted(x: VideoSegment, s: seq<VideoSegment>)
    requires SortedByStart(s)
    ensures SortedByStart(InsertByStart(x, s))
  {
    if |s| > 0 && x.startTime >= s[0].startTime {
      var rest := InsertByStart(x, s[1..]);
      InsertKeepsSorted(x, s[1..]);
      var r := [s[0]] + rest;
      forall j | 0 <= j < |rest|
        ensures s[0].startTime <= rest[j].startTime
      {
        assert rest[j] in multiset(rest);
        assert rest[j] == x || rest[j] in multiset(s[1..]);
        if rest[j] != x {
          var m :| 0 <= m < |s[1..]| && s[1..][m] == rest[j];
          assert s[m + 1] == rest[j];
        }
      }
      assert forall i, j :: 0 < i < j < |r| ==> r[i] == rest[i - 1] && r[j] == rest[j - 1];
    }
  }

  /** Insertion sort that inserts each later element after the equal-start
      elements already placed, so equal starts keep their input order. */
  function SortByStart(s: seq<VideoSegment>): (r: seq<VideoSegment>)
    ensures |r| == |s|
    ensures multiset(r) == multiset(s)
    ensures SortedByStart(r)
  {
    if |s| == 0 then []
    else
      assert s == s[..|s| - 1] + [s[|s| - 1]];
      var sortedInit := SortByStart(s[..|s| - 1]);
      InsertKeepsSorted(s[|s| - 1], sortedInit);
      InsertByStart(s[|s| - 1], sortedInit)
  }

  /** Every element of the sorted output comes from the input. */
  lemma SortMembers(s: seq<VideoSegment>)
    ensures forall i :: 0 <= i < |s| ==> SortByStart(s)[i] in s
  {
    var r := SortByStart(s);
    forall i | 0 <= i < |s|
      ensures r[i] in s
    {
      assert r[i] in multiset(r);
    }
  }

  /** Sorting neither adds nor loses an id. */
  lemma SortKeepsIds(s: seq<VideoSegment>, id: string)
    ensures HasId(SortByStart(s), id) <==> HasId(s, id)
  {
    var r := SortByStart(s);
    if HasId(s, id) {
      var i :| 0 <= i < |s| && s[i].id == id;
      assert s[i] in multiset(r);
      var j :| 0 <= j < |r| && r[j] == s[i];
    }
    if HasId(r, id) {
      SortMembers(s);
      var j :| 0 <= j < |r| && r[j].id == id;
      var i :| 0 <= i < |s| && s[i] == r[j];
    }
  }

  /** The subsequence of `s` whose elements start exactly at `k`. */
  function StartingAt(s: seq<VideoSegment>, k: real): seq<VideoSegment> {
    if |s| == 0 then []
    else (if s[0].startTime == k then [s[0]] else []) + StartingAt(s[1..], k)
  }

  lemma {:induction false} StartingAtAppend(a: seq<VideoSegment>, b: seq<VideoSegment>, k: real)
    ensures StartingAt(a + b, k) == StartingAt(a, k) + StartingAt(b, k)
  {
    if |a| > 0 {
      assert (a + b)[1..] == a[1..] + b;
      StartingAtAppend(a[1..], b, k);
    } else {
      assert a + b == b;
    }
  }

  lemma {:induction false} NoneStartingAt(s: seq<VideoSegment>, k: real)
    requires forall i :: 0 <= i < |s| ==> s[i].startTime > k
    ensures StartingAt(s, k) == []
  {
    if |s| > 0 {
      NoneStartingAt(s[1..], k);
    }
  }

  lemma {:induction false} InsertKeepsOrderOfEquals(x: VideoSegment, s: seq<VideoSegment>, k: real)
    requires SortedByStart(s)
    ensures StartingAt(InsertByStart(x, s), k)
            == StartingAt(s, k) + (if x.startTime == k then [x] else [])
  {
    if |s| == 0 {
    } else if x.startTime < s[0].startTime {
      var r := [x] + s;
      assert r[1..] == s;
      if x.startTime == k {
        NoneStartingAt(s, k);
      }
    } else {
      var rest := InsertByStart(x, s[1..]);
      var r := [s[0]] + rest;
      var head := if s[0].startTime == k then [s[0]] else [];
      assert r[1..] == rest;
      assert StartingAt(r, k) == head + StartingAt(rest, k);
      assert StartingAt(s, k) == head + StartingAt(s[1..], k);
      assert SortedByStart(s[1..]);
      InsertKeepsOrderOfEquals(x, s[1..], k);
    }
  }

  /** Stability: for every start time, the segments starting there appear in the
      output in the same relative order as in the input. */
  lemma {:induction false} SortIsStable(s: seq<VideoSegment>, k: real)
    ensures StartingAt(SortByStart(s), k) == StartingAt(s, k)
  {
    if |s| > 0 {
      var init, last := s[..|s| - 1], s[|s| - 1];
      var tail := if last.startTime == k then [last] else [];
      assert SortByStart(s) == InsertByStart(last, SortByStart(init));
      SortIsStable(init, k);
      InsertKeepsOrderOfEquals(last, SortByStart(init), k);
      assert StartingAt(SortByStart(s), k) == StartingAt(init, k) + tail;
      assert [last][1..] == [];
      assert StartingAt([last], k) == tail;
      StartingAtAppend(init, [last], k);
      assert s == init + [last];
    }
  }

  lemma {:induction false} InsertAfterAll(x: VideoSegment, s: seq<VideoSegment>)
    requires forall i :: 0 <= i < |s| ==> s[i].startTime <= x.startTime
    ensures InsertByStart(x, s) == s + [x]
  {
    if |s| > 0 {
      InsertAfterAll(x, s[1..]);
      assert s == [s[0]] + s[1..];
    }
  }

  /** A sequence already sorted by start is returned unchanged. */
  lemma {:induction false} SortedIsFixpoint(s: seq<VideoSegment>)
    requires SortedByStart(s)
    ensures SortByStart(s) == s
  {
    if |s| > 0 {
      var init, last := s[..|s| - 1], s[|s| - 1];
      assert s == init + [last];
      assert SortedByStart(init);
      SortedIsFixpoint(init);
      assert SortByStart(s) == InsertByStart(last, SortByStart(init));
      assert forall i :: 0 <= i < |init| ==> init[i].startTime <= last.startTime;
      InsertAfterAll(last, init);
    }
  }

  /** What a segment is apart from where it starts: id, source and duration. */
  function Shape(s: VideoSegment): VideoSegment {
    s.(startTime := 0.0)
  }

  function Shapes(s: seq<VideoSegment>): (r: seq<VideoSegment>)
    ensures |r| == |s| && forall i :: 0 <= i < |s| ==> r[i] == Shape(s[i])
  {
    seq(|s|, i requires 0 <= i < |s| => Shape(s[i]))
  }

  /** Removing the element at `j` removes exactly one copy of it from the bag. */
  lemma RemoveAt<T>(b: seq<T>, j: nat)
    requires j < |b|
    ensures multiset(b[..j] + b[j + 1..]) + multiset{b[j]} == multiset(b)
  {
    assert b == b[..j] + [b[j]] + b[j + 1..];
  }

  lemma ShapesRemoveAt(b: seq<VideoSegment>, j: nat)
    requires j < |b|
    ensures Shapes(b[..j] + b[j + 1..]) == Shapes(b)[..j] + Shapes(b)[j + 1..]
    ensures Shapes(b)[j] == Shape(b[j])
  {
  }

  lemma ShapesSnoc(a: seq<VideoSegment>, x: VideoSegment)
    ensures Shapes(a + [x]) == Shapes(a) + [Shape(x)]
  {
  }

  lemma Cancel<T>(p: multiset<T>, q: multiset<T>, x: T)
    requires p + multiset{x} == q + multiset{x}
    ensures p == q
  {
    forall y
      ensures p[y] == q[y]
    {
      assert (p + multiset{x})[y] == (q + multiset{x})[y];
    }
  }

  /** Two sequences that are permutations of each other have the same bag of shapes. */
  lemma {:induction false} PermutationKeepsShapes(a: seq<VideoSegment>, b: seq<VideoSegment>)
    requires multiset(a) == multiset(b)
    ensures multiset(Shapes(a)) == multiset(Shapes(b))
    decreases |a|
  {
    if |a| == 0 {
      assert |b| == |multiset(b)| == 0;
    } else {
      var x := a[|a| - 1];
      var a' := a[..|a| - 1];
      assert a == a' + [x];
      assert x in multiset(b);
      var j :| 0 <= j < |b| && b[j] == x;
      var b' := b[..j] + b[j + 1..];
      RemoveAt(b, j);
      Cancel(multiset(a'), multiset(b'), x);
      PermutationKeepsShapes(a', b');
      ShapesRemoveAt(b, j);
      RemoveAt(Shapes(b), j);
      ShapesSnoc(a', x);
    }
  }
}

/** What the playback coordinator guarantees: positive ticks that add up to the
    video's progress, silence once ended, stopping at the end, and segment
    switches that land the player on the segment under the playhead. */
module PlaybackProperties {
  import opened Wrappers
  import opened Entities
  import opened EditorState
  import opened PlaybackCoordinator
  import EditorReducer
  import SegmentResolver
  import TimelineCalc
  import VideoController

  /** Feeds a run of time reports to the callback, collecting its commands. */
  function RunTimeUpdates(refs: Refs, vs: seq<real>): Step
    decreases |vs|
  {
    if |vs| == 0 then Step(refs, [])
    else
      var a := OnTimeUpdate(refs, vs[0]);
      var b := RunTimeUpdates(a.refs, vs[1..]);
      Step(b.refs, a.commands + b.commands)
  }

  /** The total playhead advance the dispatched TICKs ask for. */
  function TickTotal(cmds: seq<Command>): real
    decreases |cmds|
  {
    if |cmds| == 0 then 0.0
    else (if cmds[0].Dispatch? && cmds[0].action.Tick? then cmds[0].action.delta else 0.0) + TickTotal(cmds[1..])
  }

  lemma {:induction false} TickTotalAppend(a: seq<Command>, b: seq<Command>)
    ensures TickTotal(a + b) == TickTotal(a) + TickTotal(b)
    decreases |a|
  {
    if |a| > 0 {
      assert (a + b)[1..] == a[1..] + b;
      TickTotalAppend(a[1..], b);
    } else {
      assert a + b == b;
    }
  }

  /** While paused or ended every time report is ignored: no commands, refs untouched. */
  lemma {:induction false} IgnoredWhileStopped(refs: Refs, vs: seq<real>)
    requires !refs.isPlaying || refs.ended
    ensures RunTimeUpdates(refs, vs) == Step(refs, [])
    decreases |vs|
  {
    if |vs| > 0 {
      IgnoredWhileStopped(refs, vs[1..]);
    }
  }

  /** Telescoping: for increasing reports during playback the TICKs add up to
      exactly the video's progress since the last remembered time (since the
      first report when none is remembered), and the last report is remembered. */
  lemma {:induction false} TicksTelescope(refs: Refs, vs: seq<real>)
    requires |vs| > 0 && refs.isPlaying && !refs.ended
    requires forall i, j :: 0 <= i < j < |vs| ==> vs[i] < vs[j]
    requires refs.lastVideoTime.Some? ==> refs.lastVideoTime.value < vs[0]
    ensures TickTotal(RunTimeUpdates(refs, vs).commands) == vs[|vs| - 1] - refs.lastVideoTime.GetOr(vs[0])
    ensures RunTimeUpdates(refs, vs).refs.lastVideoTime == Some(vs[|vs| - 1])
    decreases |vs|
  {
    var a := OnTimeUpdate(refs, vs[0]);
    var b := RunTimeUpdates(a.refs, vs[1..]);
    TickTotalAppend(a.commands, b.commands);
    assert TickTotal(a.commands) == vs[0] - refs.lastVideoTime.GetOr(vs[0]) by {
      if |a.commands| == 1 {
        assert a.commands[1..] == [];
      }
    }
    if |vs| > 1 {
      TicksTelescope(a.refs, vs[1..]);
    }
  }

  /** At the end of the timeline nothing is loaded or sought; while playing the
      step stops exactly as an automatic rewind. */
  lemma EndHandling(refs: Refs, s: EditorState)
    requires refs.hasController && AtEnd(s)
    ensures var r := ResolvePlayback(refs, s);
            forall i :: 0 <= i < |r.commands| ==> !r.commands[i].Load? && !r.commands[i].Seek?
    ensures s.isPlaying ==> ResolvePlayback(refs, s) == Step(refs.(ended := true, wasAutoRewind := true), StopCommands)
    ensures !s.isPlaying ==> ResolvePlayback(refs, s) == Step(refs, [])
  {
  }

  /** Once ended, resolution is silent unless the end is reached again while
      playing. */
  lemma EndedIsSilent(refs: Refs, s: EditorState)
    requires refs.ended && !(AtEnd(s) && s.isPlaying)
    ensures ResolvePlayback(refs, s) == Step(refs, [])
  {
  }

  /** A gap (or the time past the last segment) during playback stops playback,
      without marking an automatic rewind. */
  lemma GapStops(refs: Refs, s: EditorState)
    requires refs.hasController && !AtEnd(s) && !refs.ended && s.isPlaying
    requires forall i :: 0 <= i < |s.timeline.segments| ==> !SegmentResolver.Contains(s.timeline.segments[i], s.currentTime)
    ensures ResolvePlayback(refs, s) == Step(refs.(ended := true), StopCommands)
  {
    SegmentResolver.ResolveAgreesWithMap(s.currentTime, s.timeline.segments);
  }

  /** Under the playhead, a switch happens exactly when the segment differs
      from the one last loaded: it remembers the segment, forgets the last video
      time, loads the source, seeks to the local time and plays if playing. */
  lemma SegmentSwitch(refs: Refs, s: EditorState, k: nat)
    requires refs.hasController && !AtEnd(s) && !refs.ended
    requires NonOverlapping(s.timeline.segments) && NonNegativeDurations(s.timeline.segments)
    requires k < |s.timeline.segments| && SegmentResolver.Contains(s.timeline.segments[k], s.currentTime)
    ensures var seg := s.timeline.segments[k];
            var r := ResolvePlayback(refs, s);
            (|r.commands| > 0 <==> refs.lastSegmentId != Some(seg.id))
            && (refs.lastSegmentId == Some(seg.id) ==> r == Step(refs, []))
            && (refs.lastSegmentId != Some(seg.id) ==>
                  r.refs == refs.(lastSegmentId := Some(seg.id), lastVideoTime := None)
                  && r.commands == [Load(seg.source), Seek(s.currentTime - seg.startTime)]
                                   + (if s.isPlaying then [CtlPlay] else []))
  {
    SegmentResolver.ResolveAgreesWithMap(s.currentTime, s.timeline.segments);
    SegmentResolver.ResolverCorrect(s.timeline.segments, s.currentTime, k);
  }

  /** Every Load and Seek the resolution issues names the source of a segment
      under the playhead and a local time inside it. */
  lemma LoadsTargetPlayhead(refs: Refs, s: EditorState)
    ensures var r := ResolvePlayback(refs, s);
            forall i :: 0 <= i < |r.commands| && r.commands[i].Load? ==>
              exists k :: 0 <= k < |s.timeline.segments| && SegmentResolver.Contains(s.timeline.segments[k], s.currentTime)
                          && r.commands[i].src == s.timeline.segments[k].source
    ensures var r := ResolvePlayback(refs, s);
            forall i :: 0 <= i < |r.commands| && r.commands[i].Seek? ==>
              exists k :: 0 <= k < |s.timeline.segments| && SegmentResolver.Contains(s.timeline.segments[k], s.currentTime)
                          && r.commands[i].time == s.currentTime - s.timeline.segments[k].startTime
                          && 0.0 <= r.commands[i].time < s.timeline.segments[k].duration
  {
    var r := ResolvePlayback(refs, s);
    SegmentResolver.ResolveAgreesWithMap(s.currentTime, s.timeline.segments);
    var m := SegmentResolver.ResolveActiveSegment(s.currentTime, s.timeline.segments);
    if m.Some? && |r.commands| > 0 && refs.hasController && !AtEnd(s) && !refs.ended {
      var k :| 0 <= k < |s.timeline.segments| && s.timeline.segments[k] == m.value.segment;
      assert SegmentResolver.Contains(s.timeline.segments[k], s.currentTime);
    }
  }

  /** Applies a command list to `controllerRef` in order. */
  function ExecAll(ctl: Option<VideoController.Controller>, cmds: seq<Command>, playAccepted: bool): Option<VideoController.Controller>
    decreases |cmds|
  {
    if |cmds| == 0 then ctl else ExecAll(ExecController(ctl, cmds[0], playAccepted), cmds[1..], playAccepted)
  }

  /** A segment switch, once the player has loaded its metadata, leaves the
      player on the segment's source at the local time. It plays exactly when
      the editor plays and the player accepts, or when the source was already
      loaded (no reload) and the player was already playing. */
  lemma SwitchLandsPlayer(refs: Refs, s: EditorState, c: VideoController.Controller, playAccepted: bool, k: nat)
    requires refs.hasController && !AtEnd(s) && !refs.ended
    requires NonOverlapping(s.timeline.segments) && NonNegativeDurations(s.timeline.segments)
    requires k < |s.timeline.segments| && SegmentResolver.Contains(s.timeline.segments[k], s.currentTime)
    requires refs.lastSegmentId != Some(s.timeline.segments[k].id)
    requires VideoController.Inv(c) && VideoController.Bound(c)
    ensures var seg := s.timeline.segments[k];
            var after := ExecAll(Some(c), ResolvePlayback(refs, s).commands, playAccepted);
            && after.Some? && VideoController.Bound(after.value)
            && var p := VideoController.LoadedMetadata(after.value).player.value;
               p.src == Some(seg.source) && p.time == s.currentTime - seg.startTime
               && (p.playing <==> (s.isPlaying && playAccepted)
                                  || (c.currentSrc == Some(seg.source) && c.player.value.playing))
  {
    var seg := s.timeline.segments[k];
    SegmentSwitch(refs, s, k);
    var cmds := ResolvePlayback(refs, s).commands;
    var c1 := VideoController.LoadSource(c, seg.source).value;
    var c2 := VideoController.Seek(c1, s.currentTime - seg.startTime);
    VideoController.LoadSeekLands(c, seg.source, s.currentTime - seg.startTime);
    assert ExecController(Some(c), cmds[0], playAccepted) == Some(c1);
    assert ExecController(Some(c1), cmds[1], playAccepted) == Some(c2);
    assert ExecAll(Some(c), cmds, playAccepted) == ExecAll(Some(c1), cmds[1..], playAccepted);
    assert cmds[1..][1..] == cmds[2..];
    assert ExecAll(Some(c1), cmds[1..], playAccepted) == ExecAll(Some(c2), cmds[2..], playAccepted);
    if s.isPlaying {
      var c3 := VideoController.Play(c2, playAccepted);
      assert cmds[2..] == [CtlPlay];
      assert ExecAll(Some(c2), cmds[2..], playAccepted) == ExecAll(Some(c3), [], playAccepted);
    } else {
      assert cmds[2..] == [];
    }
  }

  /** Reaching the end while playing: the stop pauses the player and the editor;
      the PAUSE render pauses the player again; the deferred frame seeks the
      editor to 0; the render at 0 only consumes the automatic-rewind flag. The
      cycle ends paused at 0 with nothing loaded and `ended` still set, so no
      segment is reloaded before playback restarts. */
  lemma AutoRewindCycle(refs: Refs, s0: EditorState)
    requires refs.hasController && !refs.ended
    requires s0.isPlaying && AtEnd(s0) && TimelineCalc.CalcDuration(s0.timeline.segments) > EndEpsilon
    ensures var a := ResolvePlayback(refs, s0);
            var s1 := EditorReducer.Reduce(s0, Pause);
            var b := AfterRender(a.refs, s1, ChangesOf(s0, Pause));
            var c := RunFrame(b.refs, RewindToStart);
            var s2 := EditorReducer.Reduce(s1, SetTime(0.0));
            var d := AfterRender(c.refs, s2, ChangesOf(s1, SetTime(0.0)));
            && a.commands == StopCommands
            && b.commands == [CtlPause]
            && c.commands == [Dispatch(SetTime(0.0))]
            && d.commands == []
            && s2.currentTime == 0.0 && !s2.isPlaying
            && d.refs.ended && !d.refs.wasAutoRewind && !d.refs.isPlaying
            && d.refs.lastSegmentId.None? && d.refs.lastVideoTime.None?
  {
    var a := ResolvePlayback(refs, s0);
    var s1 := EditorReducer.Reduce(s0, Pause);
    assert s1 == s0.(isPlaying := false);
    assert a.refs.ended && a.refs.wasAutoRewind;
    var b := AfterRender(a.refs, s1, ChangesOf(s0, Pause));
    assert ChangesOf(s0, Pause) == Changes(true, false, false);
    assert b.refs == a.refs.(isPlaying := false);
    var c := RunFrame(b.refs, RewindToStart);
    var s2 := EditorReducer.Reduce(s1, SetTime(0.0));
    assert s2 == s1.(currentTime := 0.0);
    assert s1.currentTime > 0.0;
    assert ChangesOf(s1, SetTime(0.0)) == Changes(false, true, false);
    assert !AtEnd(s2);
  }

  /** Starting playback clears `ended` and, on a segment not yet loaded, loads
      it, seeks to the local time and plays (once from resolution, once from
      the play/pause effect). */
  lemma PlayResumes(refs: Refs, s: EditorState, k: nat)
    requires refs.hasController && !s.isPlaying && !AtEnd(s)
    requires NonOverlapping(s.timeline.segments) && NonNegativeDurations(s.timeline.segments)
    requires k < |s.timeline.segments| && SegmentResolver.Contains(s.timeline.segments[k], s.currentTime)
    requires refs.lastSegmentId != Some(s.timeline.segments[k].id)
    ensures var seg := s.timeline.segments[k];
            var r := AfterRender(refs, EditorReducer.Reduce(s, Play), ChangesOf(s, Play));
            && !r.refs.ended && r.refs.isPlaying && r.refs.lastSegmentId == Some(seg.id)
            && r.commands == [Load(seg.source), Seek(s.currentTime - seg.startTime), CtlPlay, CtlPlay]
  {
    var s1 := EditorReducer.Reduce(s, Play);
    assert s1 == s.(isPlaying := true);
    assert ChangesOf(s, Play) == Changes(true, false, false);
    var t := TrackPlaying(refs, true);
    SegmentSwitch(t.refs, s1, k);
  }
}

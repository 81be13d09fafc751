/** `usePlaybackCoordinator`: keeps the video player in step with the editor
    state. The hook's refs are an explicit record; each effect body and the
    time-update callback is a step function returning the new record and the
    ordered list of side effects it performs. */
module PlaybackCoordinator {
  import opened Wrappers
  import opened Entities
  import opened EditorState
  import SegmentResolver
  import TimelineCalc
  import EditorReducer
  import VideoController

  /** The hook's mutable refs; `hasController` says whether `controllerRef`
      holds a controller. */
  datatype Refs = Refs(
    hasController: bool,
    lastVideoTime: Option<real>,
    lastSegmentId: Option<string>,
    isPlaying: bool,
    ended: bool,
    wasAutoRewind: bool)

  /** Work deferred with `requestAnimationFrame`. */
  datatype FrameTask = RewindToStart

  /** Side effects, in the order a step performs them. */
  datatype Command =
    | CtlCreate              // construct a controller and `init` it on the element
    | CtlDispose
    | CtlPause
    | CtlPlay
    | Load(src: string)
    | Seek(time: real)
    | Dispatch(action: Action)
    | NextFrame(task: FrameTask)

  datatype Step = Step(refs: Refs, commands: seq<Command>)

  /** Refs as the hook first creates them. */
  const InitialRefs: Refs := Refs(false, None, None, false, false, false)

  /** Playback is considered finished this close to the end. */
  const EndEpsilon: real := 0.01

  /** What stopping at the end (or in a gap) does: pause the player, pause the
      editor, and rewind on the next frame. */
  const StopCommands: seq<Command> := [CtlPause, Dispatch(Pause), NextFrame(RewindToStart)]

  /** The first effect: mirror the playing flag; starting playback clears `ended`. */
  function TrackPlaying(refs: Refs, isPlaying: bool): (r: Step)
    ensures r.commands == [] && r.refs.isPlaying == isPlaying
    ensures isPlaying ==> !r.refs.ended
    ensures !isPlaying ==> r.refs.ended == refs.ended
    ensures r.refs == refs.(isPlaying := isPlaying, ended := r.refs.ended)
  {
    Step(refs.(isPlaying := isPlaying, ended := if isPlaying then false else refs.ended), [])
  }

  /** The second effect's body: with a video element, create and initialise a
      controller; without one, do nothing. */
  function Mount(refs: Refs, hasElement: bool): (r: Step)
    ensures hasElement ==> r == Step(refs.(hasController := true), [CtlCreate])
    ensures !hasElement ==> r == Step(refs, [])
  {
    if hasElement then Step(refs.(hasController := true), [CtlCreate]) else Step(refs, [])
  }

  /** The second effect's cleanup: dispose of the controller and forget it. */
  function Unmount(refs: Refs): (r: Step)
    ensures !r.refs.hasController && r.commands == [CtlDispose]
    ensures r.refs == refs.(hasController := false)
  {
    Step(refs.(hasController := false), [CtlDispose])
  }

  /** The `onTimeUpdate` callback. Ignored entirely while paused or ended;
      otherwise a positive advance since the previous report becomes a TICK, and
      the reported time is remembered. */
  function OnTimeUpdate(refs: Refs, videoTime: real): (r: Step)
    ensures !refs.isPlaying || refs.ended ==> r == Step(refs, [])
    ensures refs.isPlaying && !refs.ended ==> r.refs == refs.(lastVideoTime := Some(videoTime))
    ensures forall i :: 0 <= i < |r.commands| ==> r.commands[i].Dispatch? && r.commands[i].action.Tick? && r.commands[i].action.delta > 0.0
    ensures |r.commands| <= 1
    ensures |r.commands| == 1 <==>
              refs.isPlaying && !refs.ended && refs.lastVideoTime.Some? && videoTime > refs.lastVideoTime.value
    ensures |r.commands| == 1 ==> r.commands[0].action.delta == videoTime - refs.lastVideoTime.value
  {
    if !refs.isPlaying || refs.ended then Step(refs, [])
    else
      var ticks := match refs.lastVideoTime
        case Some(last) => if videoTime - last > 0.0 then [Dispatch(Tick(videoTime - last))] else []
        case None => [];
      Step(refs.(lastVideoTime := Some(videoTime)), ticks)
  }

  /** Whether the playhead counts as at the end of a non-empty timeline. */
  predicate AtEnd(s: EditorState) {
    var total := TimelineCalc.CalcDuration(s.timeline.segments);
    total > 0.0 && s.currentTime >= total - EndEpsilon
  }

  /** The third effect: end handling first, then segment resolution. At the end
      while playing, mark the stop as an automatic rewind and stop; while ended
      do nothing; with no segment under the playhead while playing, stop; on a
      segment other than the last one loaded, load its source, seek to the local
      time and play if playing. */
  function ResolvePlayback(refs: Refs, s: EditorState): (r: Step)
    ensures !refs.hasController ==> r == Step(refs, [])
    ensures r.refs.hasController == refs.hasController && r.refs.isPlaying == refs.isPlaying
    ensures r.commands == [] || r.commands == StopCommands
            || (|r.commands| >= 2 && r.commands[0].Load? && r.commands[1].Seek?)
    ensures r.commands == StopCommands ==> s.isPlaying && r.refs.ended
    ensures |r.commands| > 0 && r.commands[0].Load? ==>
              !refs.ended && refs.lastSegmentId != r.refs.lastSegmentId && r.refs.lastVideoTime.None?
  {
    if !refs.hasController then Step(refs, [])
    else if AtEnd(s) then
      if s.isPlaying then Step(refs.(ended := true, wasAutoRewind := true), StopCommands)
      else Step(refs, [])
    else if refs.ended then Step(refs, [])
    else match SegmentResolver.ResolveActiveSegment(s.currentTime, s.timeline.segments)
      case None =>
        if s.isPlaying then Step(refs.(ended := true), StopCommands) else Step(refs, [])
      case Some(active) =>
        if refs.lastSegmentId != Some(active.segment.id) then
          Step(refs.(lastSegmentId := Some(active.segment.id), lastVideoTime := None),
               [Load(active.segment.source), Seek(active.localTime)] + (if s.isPlaying then [CtlPlay] else []))
        else Step(refs, [])
  }

  /** The fourth effect: starting playback clears `ended` and plays; stopping pauses. */
  function SyncPlayPause(refs: Refs, isPlaying: bool): (r: Step)
    ensures !refs.hasController ==> r == Step(refs, [])
    ensures refs.hasController && isPlaying ==> r == Step(refs.(ended := false), [CtlPlay])
    ensures refs.hasController && !isPlaying ==> r == Step(refs, [CtlPause])
  {
    if !refs.hasController then Step(refs, [])
    else if isPlaying then Step(refs.(ended := false), [CtlPlay])
    else Step(refs, [CtlPause])
  }

  /** The fifth effect: arriving at time 0 after an automatic rewind only
      consumes the flag; any other arrival at 0 (a user seek) forgets the loaded
      segment and the last video time and clears `ended`. */
  function RewindReset(refs: Refs, currentTime: real): (r: Step)
    ensures r.commands == []
    ensures currentTime != 0.0 ==> r.refs == refs
    ensures currentTime == 0.0 && refs.wasAutoRewind ==> r.refs == refs.(wasAutoRewind := false)
    ensures currentTime == 0.0 && !refs.wasAutoRewind ==>
              r.refs == refs.(lastSegmentId := None, lastVideoTime := None, ended := false)
  {
    if currentTime == 0.0 && refs.wasAutoRewind then Step(refs.(wasAutoRewind := false), [])
    else if currentTime == 0.0 then Step(refs.(lastSegmentId := None, lastVideoTime := None, ended := false), [])
    else Step(refs, [])
  }

  /** The deferred rewind: seek the editor to 0 and forget the loaded segment
      and the last video time. */
  function RunFrame(refs: Refs, task: FrameTask): (r: Step)
    ensures r.commands == [Dispatch(SetTime(0.0))]
    ensures r.refs == refs.(lastVideoTime := None, lastSegmentId := None)
  {
    match task
    case RewindToStart => Step(refs.(lastVideoTime := None, lastSegmentId := None), [Dispatch(SetTime(0.0))])
  }

  /** Which effect dependencies changed in a render: the playing flag and the
      time compare by value, the timeline by identity. */
  datatype Changes = Changes(isPlaying: bool, currentTime: bool, timeline: bool)

  /** The dependency changes an action causes. */
  function ChangesOf(prev: EditorState, a: Action): (ch: Changes)
    ensures ch.isPlaying <==> EditorReducer.Reduce(prev, a).isPlaying != prev.isPlaying
    ensures ch.currentTime <==> EditorReducer.Reduce(prev, a).currentTime != prev.currentTime
  {
    var next := EditorReducer.Reduce(prev, a);
    Changes(next.isPlaying != prev.isPlaying, next.currentTime != prev.currentTime,
            EditorReducer.ReplacesTimeline(prev, a))
  }

  /** Runs the effects whose dependencies changed, in declaration order. */
  function AfterRender(refs: Refs, s: EditorState, ch: Changes): (r: Step)
    ensures !ch.isPlaying && !ch.currentTime && !ch.timeline ==> r == Step(refs, [])
    ensures r.refs.hasController == refs.hasController
    ensures r.refs.isPlaying == if ch.isPlaying then s.isPlaying else refs.isPlaying
    ensures ch.isPlaying && refs.hasController ==>
              |r.commands| > 0 && r.commands[|r.commands| - 1] == (if s.isPlaying then CtlPlay else CtlPause)
  {
    var s1 := if ch.isPlaying then TrackPlaying(refs, s.isPlaying) else Step(refs, []);
    var s2 := if ch.isPlaying || ch.currentTime || ch.timeline then ResolvePlayback(s1.refs, s) else Step(s1.refs, []);
    var s3 := if ch.isPlaying then SyncPlayPause(s2.refs, s.isPlaying) else Step(s2.refs, []);
    var s4 := if ch.currentTime then RewindReset(s3.refs, s.currentTime) else Step(s3.refs, []);
    Step(s4.refs, s1.commands + s2.commands + s3.commands + s4.commands)
  }

  /** The first render runs every effect, the mount among them, in declaration order. */
  function FirstRender(s: EditorState, hasElement: bool): (r: Step)
    ensures r.refs.hasController == hasElement && r.refs.isPlaying == s.isPlaying
    ensures !hasElement ==> r.commands == []
    ensures hasElement ==> |r.commands| >= 2 && r.commands[0] == CtlCreate
                           && r.commands[|r.commands| - 1] == (if s.isPlaying then CtlPlay else CtlPause)
  {
    var s1 := TrackPlaying(InitialRefs, s.isPlaying);
    var s2 := Mount(s1.refs, hasElement);
    var s3 := ResolvePlayback(s2.refs, s);
    var s4 := SyncPlayPause(s3.refs, s.isPlaying);
    var s5 := RewindReset(s4.refs, s.currentTime);
    Step(s5.refs, s1.commands + s2.commands + s3.commands + s4.commands + s5.commands)
  }

  /** Applies a controller command to `controllerRef`. Loading a source on a
      controller that was never initialised would throw; the coordinator only
      loads after `CtlCreate`, so that case keeps the controller unchanged. */
  function ExecController(ctl: Option<VideoController.Controller>, cmd: Command, playAccepted: bool): (r: Option<VideoController.Controller>)
    ensures cmd.CtlCreate? ==> r.Some? && VideoController.Bound(r.value) && r.value.currentSrc.None? && r.value.pendingSeek.None?
    ensures cmd.CtlDispose? ==> r.None?
    ensures ctl.None? && !cmd.CtlCreate? ==> r.None?
    ensures cmd.Dispatch? || cmd.NextFrame? ==> r == ctl
    ensures ctl.Some? && VideoController.Inv(ctl.value) && r.Some? ==> VideoController.Inv(r.value)
  {
    match cmd
    case CtlCreate => Some(VideoController.Init(VideoController.Unbound))
    case CtlDispose => None
    case _ =>
      if ctl.None? then ctl
      else
        var c := ctl.value;
        match cmd
        case CtlPause => Some(VideoController.Pause(c))
        case CtlPlay => Some(VideoController.Play(c, playAccepted))
        case Load(src) =>
          (match VideoController.LoadSource(c, src)
           case Success(c1) => Some(c1)
           case Failure(_) => ctl)
        case Seek(t) => Some(VideoController.Seek(c, t))
        case _ => ctl
  }
}

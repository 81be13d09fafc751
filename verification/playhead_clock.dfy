/** The timeline playhead's visual clock: between editor updates it
    extrapolates the time from the wall clock, and it snaps to the editor's
    time when paused or when the two drift apart by more than a threshold.
    Wall-clock readings (`performance.now()` and frame timestamps, in
    milliseconds) are parameters. */
module PlayheadClock {
  import opened Wrappers
  import opened Entities

  /** Deviation beyond which the clock snaps to the editor time, in seconds. */
  const SeekThreshold: real := 0.15

  /** `baseTs` is the wall-clock instant at which the clock showed `baseTime`;
      `framePending` says whether an animation frame is requested. */
  datatype Clock = Clock(baseTime: real, baseTs: Option<real>, visualTime: real, framePending: bool)

  /** The clock as the component first creates it. */
  function NewClock(currentTime: real): Clock {
    Clock(currentTime, None, currentTime, false)
  }

  function Abs(x: real): real {
    if x < 0.0 then -x else x
  }

  /** The sync effect: when paused, or when the editor time is more than the
      threshold away from the shown time, restart the clock at the editor time
      (anchored at `now` while playing); otherwise leave it running. */
  function Sync(c: Clock, currentTime: real, isPlaying: bool, now: real): (r: Clock)
    ensures !isPlaying ==> r == c.(baseTime := currentTime, visualTime := currentTime, baseTs := None)
    ensures isPlaying && Abs(currentTime - c.visualTime) > SeekThreshold ==>
              r == c.(baseTime := currentTime, visualTime := currentTime, baseTs := Some(now))
    ensures isPlaying && Abs(currentTime - c.visualTime) <= SeekThreshold ==> r == c
  {
    if !isPlaying || Abs(currentTime - c.visualTime) > SeekThreshold then
      c.(baseTime := currentTime, visualTime := currentTime, baseTs := if isPlaying then Some(now) else None)
    else c
  }

  /** One animation frame at timestamp `ts`: without playback or an anchor it
      stops requesting frames; otherwise the shown time is the base time plus
      the seconds elapsed since the anchor, and another frame is requested. */
  function Animate(c: Clock, isPlaying: bool, ts: real): (r: Clock)
    ensures !isPlaying || c.baseTs.None? ==> r == c.(framePending := false)
    ensures isPlaying && c.baseTs.Some? ==>
              r == c.(visualTime := c.baseTime + (ts - c.baseTs.value) / 1000.0, framePending := true)
  {
    if !isPlaying || c.baseTs.None? then c.(framePending := false)
    else c.(visualTime := c.baseTime + (ts - c.baseTs.value) / 1000.0, framePending := true)
  }

  /** The animation effect's cleanup: cancel the pending frame. */
  function Stop(c: Clock): (r: Clock)
    ensures !r.framePending && r == c.(framePending := false)
  {
    c.(framePending := false)
  }

  /** The animation effect's body: starting playback anchors the clock at `now`
      without touching the base time and requests a frame. */
  function Start(c: Clock, isPlaying: bool, now: real): (r: Clock)
    ensures isPlaying ==> r == c.(baseTs := Some(now), framePending := true)
    ensures !isPlaying ==> r == c
  {
    if isPlaying then c.(baseTs := Some(now), framePending := true) else c
  }

  /** Where the indicator is drawn for a time, in pixels. */
  function Position(offset: real, px: real, t: real): (x: real)
    ensures t == 0.0 ==> x == offset
    ensures px > 0.0 ==> (x > offset <==> t > 0.0)
  {
    offset + t * px
  }

  /** After a sync during playback the shown time is within the threshold of
      the editor time; after a sync while paused it equals it and no anchor is
      kept. */
  lemma SyncBoundsDrift(c: Clock, currentTime: real, isPlaying: bool, now: real)
    ensures var r := Sync(c, currentTime, isPlaying, now);
            Abs(currentTime - r.visualTime) <= SeekThreshold
            && (!isPlaying ==> r.visualTime == currentTime && r.baseTs.None?)
  {
  }

  /** Syncing twice with the same editor time is syncing once. */
  lemma SyncIdempotent(c: Clock, currentTime: real, isPlaying: bool, now: real, later: real)
    ensures var r := Sync(c, currentTime, isPlaying, now);
            Sync(r, currentTime, isPlaying, later) == r
  {
  }

  /** Frames do not accumulate error: the shown time depends only on the latest
      frame's timestamp, and it never goes backwards for later frames. */
  lemma FramesExtrapolate(c: Clock, t1: real, t2: real)
    requires c.baseTs.Some?
    ensures Animate(Animate(c, true, t1), true, t2) == Animate(c, true, t2)
    ensures t1 <= t2 ==> Animate(c, true, t1).visualTime <= Animate(c, true, t2).visualTime
  {
  }

  /** A hard reset during playback followed by a frame shows the editor time
      plus the seconds elapsed since the reset; a frame at the start instant
      shows the base time itself. */
  lemma ResetThenFrame(c: Clock, currentTime: real, now: real, ts: real)
    requires Abs(currentTime - c.visualTime) > SeekThreshold
    ensures Animate(Sync(c, currentTime, true, now), true, ts).visualTime == currentTime + (ts - now) / 1000.0
    ensures Animate(Start(c, true, now), true, now).visualTime == c.baseTime
  {
  }

  /** A stopped clock requests no frame and a frame while paused requests none;
      the indicator moves right exactly when the time grows (for a positive scale). */
  lemma NoFramesWhenStopped(c: Clock, ts: real, offset: real, px: real, t1: real, t2: real)
    ensures !Stop(c).framePending && !Animate(c, false, ts).framePending
    ensures Animate(NewClock(t1), true, ts) == NewClock(t1)
    ensures px > 0.0 ==> (Position(offset, px, t1) < Position(offset, px, t2) <==> t1 < t2)
  {
    if px > 0.0 {
      if t1 < t2 {
        assert (t2 - t1) * px > 0.0;
      } else {
        assert (t1 - t2) * px >= 0.0;
      }
    }
  }
}

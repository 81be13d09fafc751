# Clip-timeline editor: a Dafny model

This project models the core of a browser video editor in Dafny. The editor places video clips
("segments") end to end on a timeline and draws text overlays over the video. Each overlay has
per-segment timings. Playback runs through a single video player.

The model covers:

- the pure timeline functions:
  - total duration;
  - the half-open segment lookup;
  - overlap removal by a stable sort and a forward push;
  - segment resize and move;
  - overlay geometry clamping.
- the editor reducer, over every action, together with the invariant it keeps:
  - the cached duration;
  - sorted, non-overlapping, well-formed segments;
  - in-frame overlays;
  - a consistent selection.
- the playback coordinator, modelled as explicit ref records and step functions. Each step
  returns the new refs and an ordered list of player commands and dispatched actions.
- the video player controller, over an abstract player.
- the playhead's wall-clock extrapolation.
- three export projections.
- the preview's visibility filter.
- the toolbar's action builders.
- the overlay box's colour parsing and its defaults.
- the timeline panel's zoom clamps, ruler labels and timing-drag clamp.

Times are `real` seconds, and JavaScript `null`/`undefined` are `Option`. Each React effect or
callback is its own step function. A `requestAnimationFrame` callback becomes a `NextFrame`
command, which a later `RunFrame` step executes.

Modules, one per file:

- `Wrappers`, `Entities`
- `TimelineCalc`, `SegmentResolver`, `SegmentSort`, `Normalize`, `SegmentEdits`, `OverlayConstraint`
- `EditorState`, `EditorReducer`, `EditorInvariants`
- `VideoController`, `PlaybackCoordinator`, `PlaybackProperties`, `PlayheadClock`
- `Export`, `Preview`, `Toolbar`
- `Text`, `OverlayBox`, `TimelineView`

In these places the code behaves in ways one might not expect, and the model follows the code:

- **Overlay clamping.** `constrainOverlay` clamps `x` against the width *before* that width is
  clamped. An overlay narrower than 0.05 at `x > 0.95` therefore ends up sticking out of the
  frame. See `OverlayConstraint.TinyWidthEscapesFrame` and `EditorInvariants.ResizeCanLeaveFrame`.
  `OverlayConstraint.ConstrainOverlay` gives the exact condition, and `EditorInvariants.Valid` is
  preserved only for resize patches that satisfy `PatchKeepsFrame`.
- **Normalization.** `normalizeSegments` is idempotent only when no duration is negative.
  `Normalize.NegativeDurationBreaksIdempotence` gives a counterexample.
- **TICK on an empty timeline.** On an empty timeline (duration 0), a TICK whose target
  `currentTime + delta` is negative is clamped to time 0 and playback continues. A target of 0
  or more reaches the duration, so it rewinds and pauses. The "before the end, or rewound and
  paused" outcome of `EditorInvariants.TickOutcome` is therefore stated only when the step is
  forward from a non-negative time, or the timeline is non-empty.

## Model

| member | source | states |
|---|---|---|
| TimelineCalc.CalcDuration | core/domain/services/timelineCalc.ts:3-5 | the total is at least 0 and at least every segment's end, and it is either 0 or some segment's end |
| TimelineCalc.CalcDurationIsMaxEnd | core/domain/services/timelineCalc.ts:4 | once some segment ends at or after 0, the total is exactly one segment's end, i.e. the maximum end |
| TimelineCalc.CalcDurationOrderIndependent | core/domain/services/timelineCalc.ts:4 | two lists holding the same segments, in any order or multiplicity, give the same total |
| SegmentResolver.MapTimelineToSegment | core/domain/services/mapTimelineToSegment.ts:14-31 | none exactly when no half-open interval contains t; otherwise the first containing segment in list order, with local time t − start in [0, duration) |
| SegmentResolver.ResolveActiveSegment | core/domain/services/resolveActiveSegment.ts:14-23 | none for an empty list; a returned segment is a member of the list and its local time lies in [0, duration) |
| SegmentResolver.ResolveAgreesWithMap | core/domain/services/resolveActiveSegment.ts:18-22 | the empty-list guard changes nothing: the result equals mapTimelineToSegment for every list |
| SegmentResolver.FindActiveSegment | core/domain/services/findActiveSegment.ts:3-10 | none exactly when no segment contains t; otherwise a member of the list that contains t |
| SegmentResolver.FindAgreesWithMap | core/domain/services/findActiveSegment.ts:7-9 | findActiveSegment is none iff mapTimelineToSegment is, and otherwise returns the same segment |
| SegmentResolver.EndIsExclusive | core/domain/services/mapTimelineToSegment.ts:22 | a time equal to a segment's end never selects a segment that ends at that time |
| SegmentResolver.UniqueContainer | core/domain/services/mapTimelineToSegment.ts:18-28 | in a non-overlapping list with non-negative durations, at most one segment contains a given time |
| SegmentResolver.ResolverCorrect | core/domain/services/mapTimelineToSegment.ts:18-28 | in such a list, the lookup returns exactly the segment that contains t, with local time t − start |
| SegmentResolver.TwoSegmentExample | core/domain/services/mapTimelineToSegment.ts:18-31 | on [A 0/5, B 5/5], time 4 gives (A, 4), time 6 gives (B, 1) and time 11 gives none |
| SegmentSort.SortByStart | core/shared/utils/normalizeSegment.ts:4-6 | the sort returns a permutation (same multiset) of its input, ordered by start time |
| SegmentSort.SortIsStable | core/shared/utils/normalizeSegment.ts:4-6 | for every start value, the segments with that start keep their input order (the JavaScript sort is stable) |
| SegmentSort.SortedIsFixpoint | core/shared/utils/normalizeSegment.ts:4-6 | an already sorted list comes back unchanged |
| SegmentSort.SortKeepsIds | core/shared/utils/normalizeSegment.ts:4-6 | an id occurs in the sorted list iff it occurs in the input |
| Normalize.PushForward | core/shared/utils/normalizeSegment.ts:8-17 | the first segment is untouched, and each later one is moved to the previous pushed segment's end if it starts before it |
| Normalize.NormalizeSegments | core/shared/utils/normalizeSegment.ts:3-20 | the output is non-overlapping; each element is the stable-sorted input with only its start moved forward; a moved start lands exactly on its predecessor's end; the first element is unchanged |
| Normalize.NormalizedIsSorted | core/shared/utils/normalizeSegment.ts:8-17 | with non-negative durations the output is also sorted by start |
| Normalize.NormalizeKeepsSegments | core/shared/utils/normalizeSegment.ts:4-16 | every output segment is some input segment whose start may only have moved forward |
| Normalize.NormalizeKeepsWellFormed | core/shared/utils/normalizeSegment.ts:12-16 | non-negative starts and positive durations survive normalization |
| Normalize.PushForwardFixesNonOverlapping | core/shared/utils/normalizeSegment.ts:14 | the push changes nothing on a list that already has no overlaps |
| Normalize.NormalizeFixesNormalized | core/shared/utils/normalizeSegment.ts:14 | a non-overlapping list with non-negative durations is returned unchanged |
| Normalize.NormalizeIdempotent | core/shared/utils/normalizeSegment.ts:3-20 | normalizing twice equals normalizing once, when no duration is negative |
| Normalize.NegativeDurationBreaksIdempotence | core/shared/utils/normalizeSegment.ts:3-20 | a list with a negative duration whose second normalization differs from the first |
| Normalize.NormalizeKeepsShapes | core/shared/utils/normalizeSegment.ts:4-16 | the multiset of (id, source, duration) is preserved, so the output is a permutation up to start times |
| SegmentEdits.ResizeOne | core/shared/utils/resizeSegment.ts:20-53 | only the target may change, and only to a positive duration; id and source are kept; a start-edge resize keeps the end; an end-edge resize keeps the start; non-negative starts stay non-negative |
| SegmentEdits.ResizeOneEdges | core/shared/utils/resizeSegment.ts:25-52 | a start edge gives start max(0, start+delta), an end edge gives duration+delta; either is rejected (segment unchanged) when the new duration is not positive |
| SegmentEdits.ResizeSegment | core/shared/utils/resizeSegment.ts:14-56 | no overlaps, the same length, and well-formed input stays well-formed. Up to start times the result is a permutation of the per-segment resize. Element by element it is the stable-sorted resized list with starts only moved forward |
| SegmentEdits.ResizeKeepsOtherShapes | core/shared/utils/resizeSegment.ts:20-56 | every segment other than the target survives with its id, source and duration. The target survives with its id and source and its resized duration |
| SegmentEdits.ResizeUnknownId | core/shared/utils/resizeSegment.ts:20-55 | with an unknown id the result is just the normalized input |
| SegmentEdits.ResizeExample | core/shared/utils/resizeSegment.ts:42-55 | shrinking A's end by 2 on [A 0/5, B 5/5] gives A duration 3 and leaves B at 5 |
| SegmentEdits.FindIndex | core/shared/utils/moveSegment.ts:16-20 | the first index carrying the id, or none exactly when no segment has it |
| SegmentEdits.ClampMove | core/shared/utils/moveSegment.ts:23-45 | with a next neighbour the start is at most next.start − duration; when the gap fits, the start is at least max(0, prevEnd), equals the proposal inside the gap and equals the lower bound below it |
| SegmentEdits.MoveInOrder | core/shared/utils/moveSegment.ts:16-51 | none exactly for an unknown id; otherwise only start times can differ, and every other segment is copied |
| SegmentEdits.MoveInOrderStart | core/shared/utils/moveSegment.ts:22-51 | the moved segment's new start is the clamp of start+delta between its sorted neighbours |
| SegmentEdits.MoveSegment | core/shared/utils/moveSegment.ts:8-57 | an unknown id returns the timeline unchanged; overlays and the cached duration are carried over; the segments are the sorted list with the one start moved |
| SegmentEdits.SetStartInGap | core/shared/utils/moveSegment.ts:47-51 | a start placed inside the gap between neighbours keeps the list non-overlapping and changes no other segment |
| SegmentEdits.ClampStaysInGap | core/shared/utils/moveSegment.ts:26-45 | in a non-overlapping list the clamped start always lies within the gap between neighbours |
| SegmentEdits.MoveKeepsNonOverlapping | core/shared/utils/moveSegment.ts:12-51 | moving a segment of a sorted, non-overlapping list with unique ids keeps it non-overlapping and changes only that segment |
| OverlayConstraint.ConstrainOverlay | core/domain/services/constrainOverlay.ts:3-12 | the size ends in [0.05, 1]; the position is in [0, max(0, 1 − input size)]; x + width ≤ 1 holds exactly when the input width is ≥ 0.05 or x ≤ 0.95 (and likewise for y) |
| OverlayConstraint.ConstrainFixesInBounds | core/domain/services/constrainOverlay.ts:7-10 | the clamp is the identity on in-frame geometries, hence idempotent on them |
| OverlayConstraint.ConstrainInBounds | core/domain/services/constrainOverlay.ts:7-10 | a geometry whose size is already in [0.05, 1] is clamped into the frame |
| OverlayConstraint.TinyWidthEscapesFrame | core/domain/services/constrainOverlay.ts:7-10 | width 0.01 at x 0.99 gives x 0.99 and width 0.05, which sticks out of the frame |
| OverlayConstraint.AxesIndependent | core/domain/services/constrainOverlay.ts:7-10 | x and width depend only on x and width; y and height depend only on y and height |
| EditorState.InitialEditorState | core/applications/states/editorState.ts:14-25 | no segments, overlays or timings; duration 0; time 0; paused; nothing selected or edited |
| EditorReducer.CalculateDuration | core/applications/states/editorReducer.ts:7-10 | 0 for no segments; otherwise at least every end and equal to one of them |
| EditorReducer.FindOverlay | core/applications/states/editorReducer.ts:149-154 | none exactly when no overlay has the id; otherwise the first overlay in list order with that id, as `.find` returns it |
| EditorReducer.Reduce | core/applications/states/editorReducer.ts:12-268 | only the timing actions change the timings, and a non-negative time stays non-negative; the per-action behaviour is in the EditorInvariants rows |
| EditorInvariants.ReduceFrame | core/applications/states/editorReducer.ts:12-268 | only ADD, MOVE and RESIZE_SEGMENT change the segments or the cached duration, and an action that builds no new timeline object leaves the timeline equal |
| EditorInvariants.CalculateDurationAgrees | core/applications/states/editorReducer.ts:7-10 | the reducer's duration and the domain total agree up to the floor at 0, and are equal on well-formed segments |
| EditorInvariants.InitialStateValid | core/applications/states/editorState.ts:14-25 | the initial state satisfies the editor invariant, including duration = total of its segments |
| EditorInvariants.PlayPauseSetTime | core/applications/states/editorReducer.ts:17-27 | PLAY and PAUSE change only isPlaying; SET_TIME changes only currentTime, to max(0, t) |
| EditorInvariants.TickOutcome | core/applications/states/editorReducer.ts:29-47 | reaching the duration rewinds to 0 and pauses; otherwise time becomes max(0, time+d) and playing is kept; nothing else changes; the time stays ≥ 0 |
| EditorInvariants.AddSegmentAppends | core/applications/states/editorReducer.ts:49-74 | earlier segments are intact; the new one keeps id, source and duration and starts at the previous last end (0 if none); a positive duration keeps the list well-formed and non-overlapping |
| EditorInvariants.SegmentEditsRecomputeDuration | core/applications/states/editorReducer.ts:49-118 | after ADD, MOVE and RESIZE_SEGMENT the duration is recomputed from the new segments, bounds every end, and overlays are untouched |
| EditorInvariants.MoveSegmentKeepsShapes | core/applications/states/editorReducer.ts:76-100 | MOVE_SEGMENT keeps the multiset of ids, sources and durations and yields a non-overlapping, still well-formed list |
| EditorInvariants.ResizeSegmentKeepsShapes | core/applications/states/editorReducer.ts:102-117 | RESIZE_SEGMENT keeps the shapes of the per-segment resize and every non-target segment's shape. It yields a non-overlapping list, and well-formed input stays well-formed |
| EditorInvariants.ShiftKeepsShapes | core/applications/states/editorReducer.ts:81-88 | the pre-normalization shift changes only start times, clamped at 0 |
| EditorInvariants.MoveOntoNeighbour | core/applications/states/editorReducer.ts:76-100 | moving B back by 8 on [A 0/5, B 5/5] puts B exactly at A's end (5), with duration 10 |
| EditorInvariants.UpdateGeometryUnclamped | core/applications/states/editorReducer.ts:129-140 | UPDATE_OVERLAY_GEOMETRY stores the payload geometry on matching overlays without clamping |
| EditorInvariants.AddOverlayRecords | core/applications/states/editorReducer.ts:120-146 | ADD_OVERLAY and ADD_OVERLAY_TIMING append their payload and change nothing else |
| EditorInvariants.OverlayMoveResize | core/applications/states/editorReducer.ts:148-195 | an unknown id leaves the state unchanged; otherwise only matching overlays change, and only their geometry, to the clamp of the moved or patched geometry of the first match |
| EditorInvariants.ContentUpdate | core/applications/states/editorReducer.ts:197-209 | text and image source carried by the payload replace those of matching overlays, absent fields are kept, nothing else changes, and a repeat is a no-op |
| EditorInvariants.MergeStyleDefaults | core/applications/states/editorReducer.ts:219-226 | unset fields default to 16, white, black and 0.4; patch fields win; an empty patch keeps an existing style; merging the same patch twice is a no-op |
| EditorInvariants.UpdateTextStyleMerges | core/applications/states/editorReducer.ts:210-233 | UPDATE_TEXT_STYLE replaces the style of matching overlays by the merge of their old style and the patch, and changes nothing else |
| EditorInvariants.TimingUpdate | core/applications/states/editorReducer.ts:235-244 | timings of the same overlay and segment are replaced by the payload, others are kept, and a repeat is a no-op |
| EditorInvariants.SelectionActions | core/applications/states/editorReducer.ts:245-266 | only the three selection actions touch the ids: SELECT clears editing, START_EDIT sets both, DESELECT clears both; "editing ⇒ selected = editing" is preserved |
| EditorInvariants.TargetStaysInFrame | core/applications/states/editorReducer.ts:148-195 | from an in-frame overlay, a move, or a resize whose patch keeps the frame, clamps into the frame |
| EditorInvariants.SegmentActionPreserves | core/applications/states/editorReducer.ts:49-118 | segment actions with a positive appended duration preserve the editor invariant |
| EditorInvariants.OverlayActionPreserves | core/applications/states/editorReducer.ts:120-233 | overlay actions with in-frame payloads preserve the editor invariant |
| EditorInvariants.ValidPreserved | core/applications/states/editorReducer.ts:12-268 | every action with a valid payload preserves the invariant: duration cache, sorted non-overlapping well-formed segments, time ≥ 0, selection consistency, overlays in frame |
| EditorInvariants.ResizeCanLeaveFrame | core/applications/states/editorReducer.ts:175-195 | a RESIZE_OVERLAY with x 0.99 and width 0.01 turns an in-frame overlay into one outside the frame |
| VideoController.Init | core/infrastructure/video/VideoPlayerController.ts:14-47 | binds a player when unbound and is a no-op when one is already bound |
| VideoController.LoadSource | core/infrastructure/video/VideoPlayerController.ts:49-57 | fails exactly when unbound; the same source is a no-op. A new source becomes the current one, and the player pauses and must load its metadata again |
| VideoController.Seek | core/infrastructure/video/VideoPlayerController.ts:59-68 | a no-op without a player; a ready player jumps to max(0, t); otherwise max(0, t) is kept as the pending seek, overwriting any earlier one |
| VideoController.LoadedMetadata | core/infrastructure/video/VideoPlayerController.ts:41-46 | the player becomes ready, a pending seek is applied to its time and then cleared |
| VideoController.Play | core/infrastructure/video/VideoPlayerController.ts:70-79 | a no-op without a player or when the play request is rejected; otherwise the player plays, and the controller's own fields never change |
| VideoController.Pause | core/infrastructure/video/VideoPlayerController.ts:81-84 | a no-op without a player; otherwise only the player's playing flag is cleared |
| VideoController.Dispose | core/infrastructure/video/VideoPlayerController.ts:86-91 | no player, no current source and no pending seek remain |
| VideoController.InvPreserved | core/infrastructure/video/VideoPlayerController.ts:9-91 | every operation keeps the controller invariant: a pending seek only while waiting for metadata, and the remembered source is the player's |
| VideoController.InitIdempotent | core/infrastructure/video/VideoPlayerController.ts:14-91 | init twice is init once, and init after dispose binds afresh with nothing remembered |
| VideoController.LoadSourceIdempotent | core/infrastructure/video/VideoPlayerController.ts:54 | loading the same source twice is loading it once |
| VideoController.LastSeekWins | core/infrastructure/video/VideoPlayerController.ts:62-67 | two seeks in a row equal the second seek alone |
| VideoController.MetadataAppliesOnce | core/infrastructure/video/VideoPlayerController.ts:41-46 | a second metadata event changes nothing, so the pending seek is applied exactly once |
| VideoController.LoadSeekLands | core/infrastructure/video/VideoPlayerController.ts:41-67 | load, then seek, then metadata leaves the player on the new source at max(0, t), ready, with nothing pending |
| PlaybackCoordinator.TrackPlaying | core/applications/hooks/usePlaybackCoordinator.ts:29-34 | the playing ref follows isPlaying, and starting to play clears ended |
| PlaybackCoordinator.Mount | core/applications/hooks/usePlaybackCoordinator.ts:39-61 | with a video element the controller is created; without one nothing happens |
| PlaybackCoordinator.Unmount | core/applications/hooks/usePlaybackCoordinator.ts:63-66 | disposes the controller and forgets it |
| PlaybackCoordinator.OnTimeUpdate | core/applications/hooks/usePlaybackCoordinator.ts:46-60 | ignored entirely while paused or ended; otherwise records the time and dispatches one TICK exactly when a previous time exists and the delta is positive, so every TICK is positive |
| PlaybackCoordinator.ResolvePlayback | core/applications/hooks/usePlaybackCoordinator.ts:72-144 | nothing without a controller, which the step never binds or unbinds. The output is silence, the stop sequence (only while playing, and marking ended) or a load-then-seek, which happens only when not ended, and records a new segment with the time ref cleared. The PlaybackProperties rows give the case-by-case contract |
| PlaybackCoordinator.SyncPlayPause | core/applications/hooks/usePlaybackCoordinator.ts:149-160 | without a controller nothing happens; playing clears ended and plays; paused pauses |
| PlaybackCoordinator.RewindReset | core/applications/hooks/usePlaybackCoordinator.ts:165-177 | time 0 after an auto-rewind only consumes the flag; any other time 0 clears segment, time and ended refs; other times change nothing |
| PlaybackCoordinator.RunFrame | core/applications/hooks/usePlaybackCoordinator.ts:96-100 | the deferred frame dispatches SET_TIME(0) and clears the time and segment refs |
| PlaybackCoordinator.AfterRender | core/applications/hooks/usePlaybackCoordinator.ts:29-177 | no changed dependency runs nothing. The playing ref follows isPlaying only when it changed. With a controller, a play-state change ends with play or pause according to the new state |
| PlaybackCoordinator.FirstRender | core/applications/hooks/usePlaybackCoordinator.ts:29-177 | the mount binds a controller iff there is a video element. Without one nothing is emitted. With one, the commands start with the creation and end with play or pause according to isPlaying |
| PlaybackCoordinator.ExecController | core/infrastructure/video/VideoPlayerController.ts:14-91 | creation binds a fresh controller and disposal forgets it. Commands before creation do nothing, and dispatches and frames leave the controller alone. Every command keeps the controller invariant |
| PlaybackProperties.IgnoredWhileStopped | core/applications/hooks/usePlaybackCoordinator.ts:46-50 | any run of time updates while paused or ended emits nothing and changes no ref |
| PlaybackProperties.TicksTelescope | core/applications/hooks/usePlaybackCoordinator.ts:52-59 | for increasing player times, the dispatched ticks sum to the last time minus the first reference time |
| PlaybackProperties.EndHandling | core/applications/hooks/usePlaybackCoordinator.ts:81-103 | at the end nothing is loaded or sought; while playing, ended and auto-rewind are set, then pause, PAUSE and a deferred rewind follow in that order |
| PlaybackProperties.EndedIsSilent | core/applications/hooks/usePlaybackCoordinator.ts:105-106 | while ended (and not at the end while playing) the resolution step emits nothing |
| PlaybackProperties.GapStops | core/applications/hooks/usePlaybackCoordinator.ts:113-129 | playing with no segment under the playhead sets ended (not auto-rewind) and stops with the same sequence |
| PlaybackProperties.SegmentSwitch | core/applications/hooks/usePlaybackCoordinator.ts:131-143 | commands are emitted iff the active id differs from the last one; a switch records the id, clears the time ref, loads, seeks to the local time and plays only if playing |
| PlaybackProperties.LoadsTargetPlayhead | core/applications/hooks/usePlaybackCoordinator.ts:108-143 | every load names the source of a segment under the playhead and every seek its local time within that segment |
| PlaybackProperties.SwitchLandsPlayer | core/applications/hooks/usePlaybackCoordinator.ts:131-143 | executing a switch on a bound controller leaves the player, once metadata arrives, on the segment's source at the local time. It is playing iff the editor plays and the play is accepted, or the source was already loaded and the player was already playing |
| PlaybackProperties.AutoRewindCycle | core/applications/hooks/usePlaybackCoordinator.ts:81-177 | the end sequence, PAUSE, the rewind frame and SET_TIME(0) end at time 0, paused, with the auto-rewind flag consumed, ended still set and no reload |
| PlaybackProperties.PlayResumes | core/applications/hooks/usePlaybackCoordinator.ts:29-160 | pressing play over a not-yet-loaded segment clears ended and emits load, seek, play, play |
| PlayheadClock.Sync | core/ui/components/timeline/Playhead.tsx:27-41 | paused: the clock resets to the editor time with no anchor; playing and more than 0.15 s off: hard reset anchored at now; otherwise unchanged |
| PlayheadClock.Animate | core/ui/components/timeline/Playhead.tsx:43-56 | no frame and no further frame unless playing with an anchor; otherwise visual time = base + elapsed ms / 1000 and another frame is requested |
| PlayheadClock.Start | core/ui/components/timeline/Playhead.tsx:58-61 | starting to play anchors the clock at now without touching the base time and requests a frame |
| PlayheadClock.Stop | core/ui/components/timeline/Playhead.tsx:63-66 | stopping cancels the pending frame and changes nothing else |
| PlayheadClock.Position | core/ui/components/timeline/Playhead.tsx:52 | time 0 sits at the offset, and at a positive scale a position lies right of the offset iff its time is positive |
| PlayheadClock.SyncBoundsDrift | core/ui/components/timeline/Playhead.tsx:31-35 | after a sync the shown time is within 0.15 s of the editor time, and equal to it while paused |
| PlayheadClock.SyncIdempotent | core/ui/components/timeline/Playhead.tsx:27-41 | a second sync with the same editor time changes nothing |
| PlayheadClock.FramesExtrapolate | core/ui/components/timeline/Playhead.tsx:47-50 | frames extrapolate from the anchor, not from each other, and later frames never show an earlier time |
| PlayheadClock.ResetThenFrame | core/ui/components/timeline/Playhead.tsx:31-60 | after a hard reset the next frame shows the editor time plus elapsed wall time; a frame at the start instant shows the base time |
| PlayheadClock.NoFramesWhenStopped | core/ui/components/timeline/Playhead.tsx:37-67 | stopped clocks request no frames, a clock without an anchor ignores frames, and positions order like times at a positive scale |
| Export.TimingsFor | core/domain/services/exportTimeline.ts:19-20 | a timing is kept iff it belongs to the overlay |
| Export.Placements | core/domain/services/exportTimeline.ts:19-25 | one placement per own timing, in order, copying segment id, start and duration |
| Export.ExportTimeline | core/domain/services/exportTimeline.ts:4-28 | segments and overlays map one to one and in order; each overlay carries its own placements |
| Export.PlacementsAreOwnTimings | core/domain/services/exportTimeline.ts:19-25 | every placement comes from a timing of that overlay, and every such timing appears |
| Export.NoTimingNoPlacements | core/domain/services/exportTimeline.ts:19-20 | an overlay without timings exports no placements |
| Export.ExportEditorState | core/domain/services/exportEditorState.ts:5-25 | segments copied in order; the "overlays" list is the timings copied in order |
| Export.EditorStateExportIgnoresPlayback | core/domain/services/exportEditorState.ts:5-25 | the output depends only on segments and timings, so seeking, ticking and deselecting do not change it |
| Export.ExportSummary | core/shared/utils/exportTimeline.ts:3-18 | the cached duration, the segments in order, and per overlay only id, text and geometry |
| Export.SummaryDurationIsLatestEnd | core/shared/utils/exportTimeline.ts:5 | in a valid editor state the exported duration is the latest segment end |
| Export.ExportsAgree | core/domain/services/exportTimeline.ts:8-26 | the two timeline exports agree on every segment's id, start and duration and every overlay's id, text and geometry |
| Preview.FirstTimingFor | core/ui/components/videoPreview.tsx:34 | none iff the overlay has no timing; otherwise its first timing in list order |
| Preview.SegmentById | core/ui/components/videoPreview.tsx:37 | none iff no segment has the id; otherwise a member with that id |
| Preview.IsVisible | core/ui/components/videoPreview.tsx:33-50 | visible only with a first timing on an existing segment; such an overlay is visible whenever it is selected |
| Preview.VisibleOverlays | core/ui/components/videoPreview.tsx:33-50 | exactly the timeline's overlays that are visible, never more of them than there are overlays |
| Preview.FilterVisible | core/ui/components/videoPreview.tsx:33-50 | an overlay is kept iff it is in the list and visible |
| Preview.FilterKeepsOrder | core/ui/components/videoPreview.tsx:33 | filtering distributes over concatenation, so visible overlays keep their list order |
| Preview.HiddenWithoutPlacement | core/ui/components/videoPreview.tsx:34-38 | with no timing, or a timing on a missing segment, an overlay is hidden even when selected |
| Preview.VisibleIff | core/ui/components/videoPreview.tsx:33-50 | visible iff segment start + timing start ≤ time < that + timing duration, or selected |
| Preview.OnlyFirstTimingCounts | core/ui/components/videoPreview.tsx:34 | timings after the first one of an overlay do not affect its visibility |
| Toolbar.FileSelectAction | core/ui/components/EditorToolbar.tsx:18-25 | an ADD_SEGMENT of the file with start 0 and duration 10 |
| Toolbar.ImportedFileAppends | core/ui/components/EditorToolbar.tsx:18-25 | the reducer overrides the nominal start: the file lands after the last segment, and the editor stays valid |
| Toolbar.PlayPauseAction | core/ui/components/EditorToolbar.tsx:29-31 | PAUSE iff playing, PLAY iff not |
| Toolbar.PlayPauseToggles | core/ui/components/EditorToolbar.tsx:29-31 | the button flips isPlaying, and pressing it twice restores the state |
| Toolbar.AddOverlayActions | core/ui/components/EditorToolbar.tsx:33-70 | nothing iff no segment contains the time; otherwise ADD_OVERLAY then ADD_OVERLAY_TIMING sharing the id, on the active segment, starting at the offset into it (in [0, duration)), lasting 3 s |
| Toolbar.AddOverlayKeepsValid | core/ui/components/EditorToolbar.tsx:49-54 | the initial geometry is already in frame, so adding the overlay keeps the editor valid |
| Toolbar.AddedOverlayIsVisible | core/ui/components/EditorToolbar.tsx:41-69 | with a fresh id and unique segment ids, the new overlay is shown in the preview at once |
| Text.DecimalRoundTrip | core/ui/components/timeline/Timeline.tsx:39 | a number rendered in decimal reads back as itself |
| Text.HexByte | core/ui/components/OverlayBox.tsx:13-15 | two hex digits read as a value in [0, 255], 16·high + low |
| OverlayBox.Channels | core/ui/components/OverlayBox.tsx:13-15 | the channels read from characters 1-2, 3-4 and 5-6 each lie in [0, 255] |
| OverlayBox.HexToRgba | core/ui/components/OverlayBox.tsx:12-17 | the output has the "rgba(…)" shape |
| OverlayBox.RgbaRoundTrip | core/ui/components/OverlayBox.tsx:12-17 | reading the output back at its ", " separators gives exactly the three parsed channels and the alpha |
| OverlayBox.HexChannelsRoundTrip | core/ui/components/OverlayBox.tsx:13-15 | a colour written as "#rrggbb" parses back to the same channels |
| OverlayBox.DefaultColourChannels | core/ui/components/OverlayBox.tsx:12-17 | "#ffffff" gives 255, 255, 255, "#000000" gives 0, 0, 0, and the default background renders as "rgba(0, 0, 0, 0.4)" |
| OverlayBox.StyleOf | core/ui/components/OverlayBox.tsx:69-121 | the overlay's own style, or black background at 0.4 and white 16 px text when it has none |
| OverlayBox.BoxDefaultsMatchReducer | core/ui/components/OverlayBox.tsx:69-70 | an unstyled overlay is drawn as it would be after a style edit that sets nothing |
| OverlayBox.DisplayText | core/ui/components/OverlayBox.tsx:124 | the overlay's text unless absent or empty, then "Type here" |
| OverlayBox.ShowsTextControls | core/ui/components/OverlayBox.tsx:72 | in a consistent selection, showing the text controls implies showing the resize handle |
| OverlayBox.ShowsResizeHandle | core/ui/components/OverlayBox.tsx:128 | in a consistent selection, the overlay being edited always shows its handle |
| OverlayBox.ControlsFollowSelection | core/ui/components/OverlayBox.tsx:72-134 | controls show iff editing this overlay and the handle iff it is selected, so editing implies the handle; the selection actions switch them as expected |
| TimelineView.ZoomIn | core/applications/hooks/useTimelineScale.ts:10-12 | a quarter larger, never above 400 |
| TimelineView.ZoomOut | core/applications/hooks/useTimelineScale.ts:14-16 | a fifth smaller, never below 20 |
| TimelineView.ZoomStaysInRange | core/applications/hooks/useTimelineScale.ts:5-16 | the default 100 is in [20, 400]; both steps keep that range; zoom-in never shrinks and zoom-out never grows a scale in range; both are monotone |
| TimelineView.ZoomInOutInverse | core/applications/hooks/useTimelineScale.ts:10-16 | away from the caps, zoom-out undoes zoom-in and vice versa |
| TimelineView.DisplayDuration | core/ui/components/timeline/Timeline.tsx:18-20 | at least 60 s and at least the duration, and equal to one of them |
| TimelineView.DisplayFallbackRedundant | core/ui/components/timeline/Timeline.tsx:18-20 | the `|| 60` fallback is subsumed: the displayed duration is max(duration, 60) |
| TimelineView.Pad2 | core/ui/components/timeline/Timeline.tsx:39 | two digits that read back as the number |
| TimelineView.FormatTime | core/ui/components/timeline/Timeline.tsx:35-40 | zero renders as "0.00" |
| TimelineView.FormatTimeRoundTrip | core/ui/components/timeline/Timeline.tsx:35-40 | every label reads back as its second: minutes before the colon, two-digit seconds after it |
| TimelineView.TickCount | core/ui/components/timeline/Timeline.tsx:107 | ceil(display duration) + 1 ticks: the last tick is at or past the end and less than a second beyond it |
| TimelineView.Ticks | core/ui/components/timeline/Timeline.tsx:107-123 | tick i sits at i·px and is labelled iff i is a multiple of 10 |
| TimelineView.RulerCoversTimeline | core/ui/components/timeline/Timeline.tsx:107-123 | at least 61 ticks cover the displayed duration, they advance left to right, and every label names its own second |
| TimelineView.TrackBar | core/ui/components/timeline/Timeline.tsx:151-168 | a bar exists iff both its overlay and its segment exist; it starts at (segment start + timing start)·px and is duration·px wide |
| TimelineView.BarUnderPlayheadIffVisible | core/ui/components/timeline/Timeline.tsx:151-168 | for an unselected overlay's first timing, the playhead lies over its bar exactly when the preview shows it |
| TimelineView.DragStart | core/ui/components/timeline/Timeline.tsx:185-187 | the start lies in [0, max(0, segment − timing duration)], stays inside the segment when the timing fits, and is unclamped inside that range |
| TimelineView.DragMonotone | core/ui/components/timeline/Timeline.tsx:183-187 | dragging further right never moves the timing earlier |
| TimelineView.DragAction | core/ui/components/timeline/Timeline.tsx:182-195 | an UPDATE_OVERLAY_TIMING for the same overlay, segment and duration |
| TimelineView.DragStaysInSegment | core/ui/components/timeline/Timeline.tsx:182-195 | after a drag step the dragged timing starts in range and ends inside its segment when it fits; every other timing and the timeline are untouched |

## Left out

- DOM, React rendering, CSS and mouse plumbing are not modelled: JSX, event listeners, element refs, scroll syncing, the `timelineSegment`, resize-handle, text-style-control, playback-control, main-editor, export-button and context components, and the `app/` pages. These only compute pixel deltas and dispatch the modelled actions.
- video.js is not modelled. The player is an abstract record with a source, a `ready` flag (`readyState >= 1`), a time and a playing flag. Assigning a new source is assumed to pause the player, as the media-element load algorithm of the HTML standard does, and to make it not ready until its metadata loads again. The `onEnded` callback and the "timeupdate" type check belong to the library wiring and are left out.
- The legacy playback paths (`syncVideo.ts`, `useVideoPlayer.ts`, `usePlaybackSync.ts`, `usePlayback.ts`) are left out: the preview uses the coordinator instead.
- `core/shared/utils/geometry.ts` is left out: it is unguarded floating-point division.
- `core/applications/hooks/useEditorState.ts` is left out: its initial state lacks the selection fields. The model uses `editorState.ts` instead.
- IEEE floating point is not modelled: times and fractions are exact reals, and 0.01, 0.15, 1.25 and 0.8 are exact constants. `toFixed` and `console.log`/`console.error` are left out.
- OverlayBox.HexToRgba: requires a colour whose characters 1-6 are hex digits. `parseInt` on malformed text (NaN and partial parses) is not modelled, and the alpha is passed in already rendered as text.
- TimelineView.FormatTime: modelled on whole seconds only, which is all the ruler passes it. The rendering of fractional seconds by `toString` is not modelled.
- EditorInvariants.TickOutcome: states "before the end, or rewound and paused" only for a forward step from a non-negative time, or a non-empty timeline. On an empty timeline, a TICK whose target time is negative keeps playing at time 0.
- EditorInvariants.ValidPreserved: needs a positive duration in ADD_SEGMENT, because the reducer appends any duration and a non-positive one breaks well-formedness. It also needs in-frame geometries in ADD_OVERLAY and UPDATE_OVERLAY_GEOMETRY, which the reducer does not clamp, and resize patches that keep the frame, because the reducer clamps `x` against the unclamped width.
- The zoom slider and the "Fit to Screen" button are not modelled. `Timeline.tsx` destructures `setPxPerSec` and `fitToDuration` from `useTimelineScale`, which returns neither. Only the hook's `zoomIn`/`zoomOut` are modelled.
- The `!state.timeline` guards (reducer, coordinator) are not modelled, because the state type always holds a timeline. The reducer's `default` case is also not modelled, because the action datatype is closed.
- UPDATE_OVERLAY_CONTENT copies the whole payload onto the overlay, including its `overlayId`. The model keeps only the two content fields. A payload field present but explicitly `undefined` is treated as absent. This applies to content patches, style patches and RESIZE_OVERLAY's geometry patch alike.
- `crypto.randomUUID`, `URL.createObjectURL`, `performance.now` and frame timestamps become parameters. Resetting the file input, and a file dialog closed without a file, are not modelled.
- React effect scheduling is not modelled. `PlaybackCoordinator.AfterRender` runs the effects in source order, for the dependency changes that `ChangesOf` derives from the action. Within one step, ref writes come before the emitted commands.
- `PlaybackCoordinator.ExecController` leaves the controller as it was when a load reaches an unbound controller. The source throws there instead. The coordinator only emits loads after creating the controller.
- `normalizeSegments` writes into the sorted copies of its input. It is modelled as a pure function, because every caller passes fresh copies.
- Playhead DOM transforms are not modelled. Only the position `offset + time·px` is.

/** `VideoPlayerController`: a thin wrapper around a media player that
    de-duplicates source loads and buffers seeks until metadata has loaded.
    The player library is abstract: a source, a ready flag (metadata loaded,
    `readyState >= 1`), a current time and whether it is playing. */
module VideoController {
  import opened Wrappers
  import opened Entities

  datatype Player = Player(src: Option<string>, ready: bool, time: real, playing: bool)

  datatype Controller = Controller(player: Option<Player>, currentSrc: Option<string>, pendingSeek: Option<real>)

  datatype ControllerError = NotInitialized

  /** A freshly constructed controller: no player, no source, no pending seek. */
  const Unbound: Controller := Controller(None, None, None)

  /** The player the library creates for an element: nothing loaded, paused at 0. */
  const NewPlayer: Player := Player(None, false, 0.0, false)

  predicate Bound(c: Controller) {
    c.player.Some?
  }

  /** What every controller state satisfies: a pending seek exists only while a
      bound player still waits for metadata and is never negative, and the
      remembered source is the one the player holds (none when unbound). */
  ghost predicate Inv(c: Controller) {
    && (c.pendingSeek.Some? ==> Bound(c) && !c.player.value.ready && c.pendingSeek.value >= 0.0)
    && (Bound(c) ==> c.player.value.src == c.currentSrc)
    && (!Bound(c) ==> c.currentSrc.None?)
  }

  /** `init`: binds a new player unless one is already bound. */
  function Init(c: Controller): (r: Controller)
    ensures Bound(r)
    ensures Bound(c) ==> r == c
    ensures !Bound(c) ==> r.player == Some(NewPlayer) && r.currentSrc == c.currentSrc && r.pendingSeek == c.pendingSeek
  {
    if Bound(c) then c else c.(player := Some(NewPlayer))
  }

  /** `loadSource`: fails before `init`; the source already loaded is not
      loaded again; a new source replaces the player's media, which pauses (the
      media-element load algorithm of the HTML standard) and waits for its
      metadata. */
  function LoadSource(c: Controller, src: string): (r: Result<Controller, ControllerError>)
    ensures r.Failure? <==> !Bound(c)
    ensures r.Success? ==> Bound(r.value) && r.value.currentSrc == Some(src) && r.value.pendingSeek == c.pendingSeek
    ensures r.Success? && c.currentSrc == Some(src) ==> r.value == c
    ensures r.Success? && c.currentSrc != Some(src) ==>
              r.value.player == Some(c.player.value.(src := Some(src), ready := false, playing := false))
  {
    if !Bound(c) then Failure(NotInitialized)
    else if c.currentSrc == Some(src) then Success(c)
    else Success(c.(currentSrc := Some(src), player := Some(c.player.value.(src := Some(src), ready := false, playing := false))))
  }

  /** `seek`: ignored without a player; on a ready player the time (floored at
      0) applies at once, otherwise it is remembered, replacing any earlier one. */
  function Seek(c: Controller, t: real): (r: Controller)
    ensures !Bound(c) ==> r == c
    ensures Bound(c) && c.player.value.ready ==>
              r == c.(player := Some(c.player.value.(time := Max(0.0, t))))
    ensures Bound(c) && !c.player.value.ready ==> r == c.(pendingSeek := Some(Max(0.0, t)))
  {
    if !Bound(c) then c
    else if c.player.value.ready then c.(player := Some(c.player.value.(time := Max(0.0, t))))
    else c.(pendingSeek := Some(Max(0.0, t)))
  }

  /** The `loadedmetadata` handler: the player becomes ready and a pending seek,
      if any, is applied and cleared. */
  function LoadedMetadata(c: Controller): (r: Controller)
    ensures !Bound(c) ==> r == c
    ensures Bound(r) == Bound(c) && r.currentSrc == c.currentSrc && (Bound(c) ==> r.pendingSeek.None?)
    ensures Bound(c) ==> r.player.value.ready && r.player.value.src == c.player.value.src
                         && r.player.value.playing == c.player.value.playing
    ensures Bound(c) ==> r.player.value.time == c.pendingSeek.GetOr(c.player.value.time)
  {
    if !Bound(c) then c
    else
      var p := c.player.value.(ready := true);
      match c.pendingSeek
      case Some(t) => c.(player := Some(p.(time := t)), pendingSeek := None)
      case None => c.(player := Some(p))
  }

  /** `play`: ignored without a player; `accepted` says whether the player's
      play request succeeded. A refusal is swallowed and changes nothing. */
  function Play(c: Controller, accepted: bool): (r: Controller)
    ensures r.currentSrc == c.currentSrc && r.pendingSeek == c.pendingSeek && Bound(r) == Bound(c)
    ensures Bound(c) && accepted ==> r.player == Some(c.player.value.(playing := true))
    ensures !Bound(c) || !accepted ==> r == c
  {
    if Bound(c) && accepted then c.(player := Some(c.player.value.(playing := true))) else c
  }

  /** `pause`: ignored without a player. */
  function Pause(c: Controller): (r: Controller)
    ensures Bound(c) ==> r.player == Some(c.player.value.(playing := false))
    ensures r.currentSrc == c.currentSrc && r.pendingSeek == c.pendingSeek && Bound(r) == Bound(c)
    ensures !Bound(c) ==> r == c
  {
    if Bound(c) then c.(player := Some(c.player.value.(playing := false))) else c
  }

  /** `dispose`: forgets the player, the source and any pending seek. */
  function Dispose(c: Controller): (r: Controller)
    ensures !Bound(r) && r.currentSrc.None? && r.pendingSeek.None?
  {
    Unbound
  }

  /** Every operation keeps the controller invariant. */
  lemma InvPreserved(c: Controller, src: string, t: real, accepted: bool)
    requires Inv(c)
    ensures Inv(Init(c)) && Inv(Seek(c, t)) && Inv(LoadedMetadata(c))
    ensures Inv(Play(c, accepted)) && Inv(Pause(c)) && Inv(Dispose(c))
    ensures LoadSource(c, src).Success? ==> Inv(LoadSource(c, src).value)
  {
  }

  /** `init` is idempotent, and after `dispose` it binds a player again. */
  lemma InitIdempotent(c: Controller)
    ensures Init(Init(c)) == Init(c)
    ensures Bound(Init(Dispose(c))) && Init(Dispose(c)).currentSrc.None? && Init(Dispose(c)).pendingSeek.None?
  {
  }

  /** Loading the same source twice is the same as loading it once. */
  lemma LoadSourceIdempotent(c: Controller, src: string)
    requires Bound(c)
    ensures LoadSource(LoadSource(c, src).value, src) == LoadSource(c, src)
  {
  }

  /** The last seek wins, whether the player is ready or not. */
  lemma LastSeekWins(c: Controller, t1: real, t2: real)
    ensures Seek(Seek(c, t1), t2) == Seek(c, t2)
  {
  }

  /** A pending seek is applied exactly once: a second metadata event changes
      nothing. */
  lemma MetadataAppliesOnce(c: Controller)
    ensures LoadedMetadata(LoadedMetadata(c)) == LoadedMetadata(c)
  {
  }

  /** Load, seek, then metadata: whether or not the source was already loaded
      and whether or not the player was ready, the player ends up on the source
      at the requested time (floored at 0), with nothing pending. */
  lemma LoadSeekLands(c: Controller, src: string, t: real)
    requires Inv(c) && Bound(c)
    ensures var c1 := LoadSource(c, src).value;
            var r := LoadedMetadata(Seek(c1, t));
            && r.player.value.src == Some(src) && r.player.value.time == Max(0.0, t)
            && r.player.value.ready && r.pendingSeek.None?
  {
  }
}

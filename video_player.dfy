/** The playback session of the `VideoPlayer` component, without React and
    the DOM: the component's state, the native `<video>` element it drives
    in full-movie mode, the commands it posts to the embedded YouTube player
    in trailer mode, and its two timers (auto-play one second after a mode
    switch, hiding the controls three seconds after the last interaction).

    `Session` is the whole state as a value and each handler is a function
    from the state before to the state after; class `Player` keeps the same
    state in fields and its methods update them step by step, each proved to
    end in the state its function describes. */
module VideoPlayer {
  import opened Options
  import opened JsBuiltins

  // ---------------------------------------------------------------------
  // Props: the fallback movie and the initial mode
  // ---------------------------------------------------------------------

  /** A playable movie: the `streamingSource` prop, or an entry of the
      fallback list. */
  datatype Movie = Movie(title: string, url: string, source: string, license: string)

  /** `PUBLIC_DOMAIN_MOVIES`, in declaration order. */
  const PublicDomainMovies: seq<Movie> := [
    Movie("Night of the Living Dead (1968)",
      "https://ia800707.us.archive.org/5/items/Night_of_the_Living_Dead_1968_720p/Night_of_the_Living_Dead_1968_720p.mp4",
      "archive.org", "Public Domain"),
    Movie("The Little Shop of Horrors (1960)",
      "https://ia801603.us.archive.org/13/items/TheLittleShopOfHorrors1960/The_Little_Shop_of_Horrors_1960.mp4",
      "archive.org", "Public Domain"),
    Movie("Charade (1963)",
      "https://ia800103.us.archive.org/27/items/Charade1963/Charade1963_512kb.mp4",
      "archive.org", "Public Domain"),
    Movie("Plan 9 from Outer Space (1959)",
      "https://ia800300.us.archive.org/1/items/Plan9FromOuterSpace1959/Plan9FromOuterSpace1959.mp4",
      "archive.org", "Public Domain"),
    Movie("The Phantom of the Opera (1925)",
      "https://ia800204.us.archive.org/4/items/ThePhantomoftheOpera/Phantom_of_the_Opera_512kb.mp4",
      "archive.org", "Public Domain")
  ]

  /** `movieIndex = Number.parseInt(videoId) % PUBLIC_DOMAIN_MOVIES.length`;
      `None` stands for `NaN`. The remainder keeps the sign of the id. */
  function MovieIndex(videoId: string): (r: Option<int>)
    ensures r.None? <==> ParseInt(videoId).None?
    ensures r.Some? ==> -|PublicDomainMovies| < r.value < |PublicDomainMovies|
    ensures r.Some? ==> (ParseInt(videoId).value - r.value) % |PublicDomainMovies| == 0
    ensures r.Some? ==> r.value == 0 || (r.value < 0 <==> ParseInt(videoId).value < 0)
  {
    match ParseInt(videoId)
    case None => None
    case Some(n) => Some(JsRem(n, |PublicDomainMovies|))
  }

  /** `PUBLIC_DOMAIN_MOVIES[movieIndex]`: `undefined` (here `None`) at a
      `NaN` or negative index. */
  function FallbackMovie(videoId: string): (r: Option<Movie>)
    ensures r.Some? ==> r.value in PublicDomainMovies
    ensures ParseInt(videoId).None? ==> r.None?
  {
    match MovieIndex(videoId)
    case None => None
    case Some(i) => if 0 <= i < |PublicDomainMovies| then Some(PublicDomainMovies[i]) else None
  }

  /** `fullMovie = streamingSource || fallbackMovie`. */
  function FullMovie(streamingSource: Option<Movie>, videoId: string): (r: Option<Movie>)
    ensures streamingSource.Some? ==> r == streamingSource
    ensures r.Some? && r != streamingSource ==> r.value in PublicDomainMovies
    ensures r.None? <==> streamingSource.None? && FallbackMovie(videoId).None?
  {
    if streamingSource.Some? then streamingSource else FallbackMovie(videoId)
  }

  /** For an id that parses to a non-negative number the fallback index is
      in range and picks the entry at the number modulo the list length, so
      the fallback always supplies a movie. */
  lemma FallbackForNonNegativeId(videoId: string, n: nat)
    requires ParseInt(videoId) == Some(n)
    ensures MovieIndex(videoId) == Some(n % |PublicDomainMovies|)
    ensures 0 <= n % |PublicDomainMovies| < |PublicDomainMovies|
    ensures FallbackMovie(videoId) == Some(PublicDomainMovies[n % |PublicDomainMovies|])
    ensures FullMovie(None, videoId).Some?
  {
  }

  /** A negative number that is not a multiple of the list length gives a
      negative index, so there is no fallback movie. */
  lemma FallbackForNegativeId(videoId: string, n: int)
    requires ParseInt(videoId) == Some(n)
    requires n < 0 && n % |PublicDomainMovies| != 0
    ensures FallbackMovie(videoId).None?
  {
    NegativeRemainder(n);
  }

  /** A negative multiple of the list length gives the index `-0`, which
      reads entry 0. */
  lemma FallbackForNegativeMultiple(videoId: string, n: int)
    requires ParseInt(videoId) == Some(n)
    requires n < 0 && n % |PublicDomainMovies| == 0
    ensures FallbackMovie(videoId) == Some(PublicDomainMovies[0])
  {
    assert JsRem(n, 5) == 0;
  }

  /** JavaScript's `%` of a negative number that the list length does not
      divide is negative. */
  lemma NegativeRemainder(n: int)
    requires n < 0 && n % 5 != 0
    ensures JsRem(n, 5) < 0
  {
    assert -n == 5 * (-(n / 5) - 1) + (5 - n % 5);
  }

  /** Ids `n` and `n + 5` give the same fallback when `n` is non-negative. */
  lemma FallbackWrapsAround(a: string, b: string, n: nat)
    requires ParseInt(a) == Some(n) && ParseInt(b) == Some(n + |PublicDomainMovies|)
    ensures FallbackMovie(a) == FallbackMovie(b)
  {
    assert (n + 5) % 5 == n % 5;
    assert MovieIndex(a) == MovieIndex(b);
  }

  /** The two tabs of the mode selector. */
  datatype Mode = Trailer | FullMovieMode

  /** `useState(streamingSource ? "fullMovie" : "trailer")`. */
  function InitialMode(hasStreamingSource: bool): (r: Mode)
    ensures r == FullMovieMode <==> hasStreamingSource
  {
    if hasStreamingSource then FullMovieMode else Trailer
  }

  /** JavaScript truthiness of the optional `trailerKey` prop. */
  predicate HasTrailer(trailerKey: Option<string>) {
    trailerKey.Some? && trailerKey.value != ""
  }

  /** `playbackMode === "trailer" && trailerKey`: the YouTube embed is the
      backend; otherwise it is the native element. */
  predicate UsesEmbed(mode: Mode, trailerKey: Option<string>) {
    mode == Trailer && HasTrailer(trailerKey)
  }

  // ---------------------------------------------------------------------
  // The session as a value
  // ---------------------------------------------------------------------

  /** What the component reads back from the native `<video>` element;
      `duration` is `None` while it is `NaN`, before the metadata loads. */
  datatype Element = Element(currentTime: real, duration: Option<real>, volume: real, muted: bool, paused: bool)

  /** A freshly mounted `<video>` element. */
  const FreshElement := Element(0.0, None, 1.0, false, true)

  /** The remote-control commands posted to the YouTube embed (the JSON
      strings themselves are not modelled). `SetVolume` carries the percent
      value the component sends. */
  datatype EmbedCommand = PlayVideo | PauseVideo | Mute | UnMute | SetVolume(percent: real) | SeekTo(seconds: real)

  /** The message the native element's `error` event shows. */
  const LoadError := "Failed to load video. The source may be unavailable."
  const PlayError := "Failed to play video. Please try again."

  /** The component's state: the React state variables, the native element,
      every command posted to the embed so far, and whether each of the two
      timers is pending. `trailerKey` is the (fixed) prop. */
  datatype Session = Session(
    trailerKey: Option<string>,
    isPlaying: bool,
    currentTime: real,
    duration: real,
    volume: real,
    isMuted: bool,
    isFullscreen: bool,
    showControls: bool,
    isBuffering: bool,
    mode: Mode,
    error: Option<string>,
    video: Element,
    sent: seq<EmbedCommand>,
    hideTimerArmed: bool,
    autoPlayArmed: bool)

  predicate Embedded(s: Session) {
    UsesEmbed(s.mode, s.trailerKey)
  }

  /** The state after mounting: the `useState` defaults, and the mode-reset
      effect, which also runs on mount and schedules the auto-play. */
  function Initial(trailerKey: Option<string>, hasStreamingSource: bool): (r: Session)
    ensures r.mode == FullMovieMode <==> hasStreamingSource
    ensures !r.isPlaying && r.currentTime == 0.0 && r.duration == 0.0
    ensures r.volume == 1.0 && !r.isMuted && !r.isFullscreen
    ensures r.showControls && r.isBuffering && r.error.None?
    ensures r.autoPlayArmed && !r.hideTimerArmed && r.sent == []
  {
    Session(trailerKey, false, 0.0, 0.0, 1.0, false, false, true, true,
      InitialMode(hasStreamingSource), None, FreshElement, [], false, true)
  }

  function Max(a: real, b: real): real {
    if a >= b then a else b
  }

  function Min(a: real, b: real): real {
    if a <= b then a else b
  }

  /** `resetControlsTimeout`: show the controls and (re)start the hide timer. */
  function ControlsReset(s: Session): (r: Session)
    ensures r.showControls && r.hideTimerArmed
    ensures r.(showControls := s.showControls, hideTimerArmed := s.hideTimerArmed) == s
  {
    s.(showControls := true, hideTimerArmed := true)
  }

  /** `togglePlay`: nothing while there is an error; otherwise play or
      pause the active backend and flip `isPlaying` without waiting for it. */
  function PlayToggled(s: Session): (r: Session)
    ensures s.error.Some? ==> r == s
    ensures s.error.None? ==> r.isPlaying == !s.isPlaying && r.showControls && r.hideTimerArmed
    ensures s.error.None? && Embedded(s) ==>
      r.sent == s.sent + [if s.isPlaying then PauseVideo else PlayVideo] && r.video == s.video
    ensures s.error.None? && !Embedded(s) ==> r.video == s.video.(paused := s.isPlaying) && r.sent == s.sent
    ensures r.(isPlaying := s.isPlaying, showControls := s.showControls, hideTimerArmed := s.hideTimerArmed,
               video := s.video, sent := s.sent) == s
  {
    if s.error.Some? then s
    else if Embedded(s) then
      s.(sent := s.sent + [if s.isPlaying then PauseVideo else PlayVideo], isPlaying := !s.isPlaying, showControls := true, hideTimerArmed := true)
    else
      s.(video := s.video.(paused := s.isPlaying), isPlaying := !s.isPlaying, showControls := true, hideTimerArmed := true)
  }

  /** `toggleMute`: nothing while there is an error; otherwise flip
      `isMuted` (and the element's `muted`, or post mute/unmute), leaving the
      volume alone. */
  function MuteToggled(s: Session): (r: Session)
    ensures s.error.Some? ==> r == s
    ensures s.error.None? ==> r.isMuted == !s.isMuted && r.volume == s.volume && r.showControls && r.hideTimerArmed
    ensures s.error.None? && Embedded(s) ==> r.sent == s.sent + [if s.isMuted then UnMute else Mute] && r.video == s.video
    ensures s.error.None? && !Embedded(s) ==> r.video == s.video.(muted := r.isMuted) && r.sent == s.sent
    ensures r.(isMuted := s.isMuted, showControls := s.showControls, hideTimerArmed := s.hideTimerArmed,
               video := s.video, sent := s.sent) == s
  {
    if s.error.Some? then s
    else if Embedded(s) then
      s.(sent := s.sent + [if s.isMuted then UnMute else Mute], isMuted := !s.isMuted, showControls := true, hideTimerArmed := true)
    else
      s.(video := s.video.(muted := !s.isMuted), isMuted := !s.isMuted, showControls := true, hideTimerArmed := true)
  }

  /** `handleVolumeChange([v])`: nothing while there is an error; the
      element's `volume` setter rejects a value outside [0, 1], which aborts
      the handler; otherwise `volume` becomes `v` and `isMuted` says whether
      `v` is 0. The element's own `muted` flag is not touched. */
  function VolumeChanged(s: Session, v: real): (r: Session)
    ensures s.error.Some? ==> r == s
    ensures s.error.None? && !Embedded(s) && !(0.0 <= v <= 1.0) ==> r == s
    ensures s.error.None? && (Embedded(s) || 0.0 <= v <= 1.0) ==>
      && r.volume == v && r.isMuted == (v == 0.0) && r.showControls && r.hideTimerArmed
      && r.(volume := s.volume, isMuted := s.isMuted, showControls := s.showControls,
            hideTimerArmed := s.hideTimerArmed, video := s.video, sent := s.sent) == s
    ensures s.error.None? && Embedded(s) ==> r.sent == s.sent + [SetVolume(v * 100.0)] && r.video == s.video
    ensures s.error.None? && !Embedded(s) && 0.0 <= v <= 1.0 ==>
      r.video == s.video.(volume := v) && r.sent == s.sent
  {
    if s.error.Some? then s
    else if Embedded(s) then
      s.(sent := s.sent + [SetVolume(v * 100.0)], volume := v, isMuted := v == 0.0, showControls := true, hideTimerArmed := true)
    else if !(0.0 <= v <= 1.0) then s
    else
      s.(video := s.video.(volume := v), volume := v, isMuted := v == 0.0, showControls := true, hideTimerArmed := true)
  }

  /** `handleSeek([t])`: nothing while there is an error; otherwise the
      position becomes exactly `t` (no clamping) on the active backend and
      in `currentTime`. */
  function Seeked(s: Session, t: real): (r: Session)
    ensures s.error.Some? ==> r == s
    ensures s.error.None? ==> r.currentTime == t && r.showControls && r.hideTimerArmed
    ensures s.error.None? && Embedded(s) ==> r.sent == s.sent + [SeekTo(t)] && r.video == s.video
    ensures s.error.None? && !Embedded(s) ==> r.video == s.video.(currentTime := t) && r.sent == s.sent
    ensures r.(currentTime := s.currentTime, showControls := s.showControls, hideTimerArmed := s.hideTimerArmed,
               video := s.video, sent := s.sent) == s
  {
    if s.error.Some? then s
    else if Embedded(s) then
      s.(sent := s.sent + [SeekTo(t)], currentTime := t, showControls := true, hideTimerArmed := true)
    else
      s.(video := s.video.(currentTime := t), currentTime := t, showControls := true, hideTimerArmed := true)
  }

  /** `max(0, min(limit, x))`. */
  function Clamp(x: real, limit: real): (r: real)
    ensures limit >= 0.0 ==> 0.0 <= r <= limit
    ensures 0.0 <= x <= limit ==> r == x
    ensures limit >= 0.0 && x < 0.0 ==> r == 0.0
    ensures x > limit && limit >= 0.0 ==> r == limit
  {
    Max(0.0, Min(limit, x))
  }

  /** `skip(d)`. On the embed: seek to `currentTime + d` clamped to
      [0, duration] using the component's own state. On the native element:
      move the element's position by `d`, clamped to the element's duration,
      without touching `currentTime`; before the metadata loads that
      duration is `NaN`, the assignment throws and nothing changes. */
  function Skipped(s: Session, d: real): (r: Session)
    ensures s.error.Some? ==> r == s
    ensures s.error.None? && Embedded(s) ==> r == Seeked(s, Clamp(s.currentTime + d, s.duration))
    ensures s.error.None? && Embedded(s) && s.duration >= 0.0 ==> 0.0 <= r.currentTime <= s.duration
    ensures s.error.None? && !Embedded(s) && s.video.duration.None? ==> r == s
    ensures s.error.None? && !Embedded(s) && s.video.duration.Some? ==>
      && r.video == s.video.(currentTime := Clamp(s.video.currentTime + d, s.video.duration.value))
      && r == ControlsReset(s.(video := r.video))
    ensures s.error.None? && !Embedded(s) && s.video.duration.Some? && s.video.duration.value >= 0.0 ==>
      0.0 <= r.video.currentTime <= s.video.duration.value && r.currentTime == s.currentTime
  {
    if s.error.Some? then s
    else if Embedded(s) then Seeked(s, Clamp(s.currentTime + d, s.duration))
    else match s.video.duration
      case None => s
      case Some(length) =>
        ControlsReset(s.(video := s.video.(currentTime := Clamp(s.video.currentTime + d, length))))
  }

  /** `toggleFullscreen`: asks the browser to enter or leave fullscreen
      (not modelled) and resets the controls timer; unlike the other
      controls it runs even while there is an error. */
  function FullscreenToggled(s: Session): (r: Session)
    ensures r == ControlsReset(s)
  {
    ControlsReset(s)
  }

  /** The `fullscreenchange` listener: the browser reports the new state. */
  function FullscreenChanged(s: Session, fullscreen: bool): (r: Session)
    ensures r.isFullscreen == fullscreen && r.(isFullscreen := s.isFullscreen) == s
  {
    s.(isFullscreen := fullscreen)
  }

  /** The mode-reset effect, run when `playbackMode` actually changes: stop,
      rewind, show buffering, clear the error and schedule one auto-play
      (replacing a pending one). The native element is remounted fresh when
      the backend changes, and kept when both modes use it. */
  function ModeSwitched(s: Session, m: Mode): (r: Session)
    ensures m == s.mode ==> r == s
    ensures m != s.mode ==>
      && r.mode == m && !r.isPlaying && r.currentTime == 0.0 && r.isBuffering
      && r.error.None? && r.autoPlayArmed
    ensures m != s.mode ==>
      r.video == (if Embedded(s) != UsesEmbed(m, s.trailerKey) then FreshElement else s.video)
    ensures r.(mode := s.mode, isPlaying := s.isPlaying, currentTime := s.currentTime, isBuffering := s.isBuffering,
               error := s.error, autoPlayArmed := s.autoPlayArmed, video := s.video) == s
  {
    if m == s.mode then s
    else
      s.(mode := m, isPlaying := false, currentTime := 0.0, isBuffering := true, error := None, autoPlayArmed := true,
         video := if Embedded(s) != UsesEmbed(m, s.trailerKey) then FreshElement else s.video)
  }

  /** The auto-play timer fires: it is no longer pending and runs
      `togglePlay` once. */
  function AutoPlayFired(s: Session): (r: Session)
    ensures !s.autoPlayArmed ==> r == s
    ensures s.autoPlayArmed ==> r == PlayToggled(s.(autoPlayArmed := false)) && !r.autoPlayArmed
  {
    if !s.autoPlayArmed then s else PlayToggled(s.(autoPlayArmed := false))
  }

  /** The hide timer fires: it is no longer pending, and it hides the
      controls only while playing. */
  function HideTimerFired(s: Session): (r: Session)
    ensures !s.hideTimerArmed ==> r == s
    ensures s.hideTimerArmed ==> !r.hideTimerArmed && r.showControls == (s.showControls && !s.isPlaying)
    ensures r.(showControls := s.showControls, hideTimerArmed := s.hideTimerArmed) == s
  {
    if !s.hideTimerArmed then s
    else s.(hideTimerArmed := false, showControls := if s.isPlaying then false else s.showControls)
  }

  // Media events. Their listeners are attached only while the native
  // element is the backend, so on the embed each of them changes nothing.

  /** `loadedmetadata`: the element now knows its duration. */
  function MetadataLoaded(s: Session, length: real): (r: Session)
    ensures Embedded(s) ==> r == s
    ensures !Embedded(s) ==>
      && r.duration == length && !r.isBuffering && r.video == s.video.(duration := Some(length))
      && r.(duration := s.duration, isBuffering := s.isBuffering, video := s.video) == s
  {
    if Embedded(s) then s
    else s.(video := s.video.(duration := Some(length)), duration := length, isBuffering := false)
  }

  /** `timeupdate`: playback has reached `t`, and `currentTime` follows. */
  function TimeUpdated(s: Session, t: real): (r: Session)
    ensures Embedded(s) ==> r == s
    ensures !Embedded(s) ==>
      && r.currentTime == t == r.video.currentTime
      && r.(currentTime := s.currentTime, video := s.video) == s && r.video.(currentTime := s.video.currentTime) == s.video
  {
    if Embedded(s) then s
    else s.(video := s.video.(currentTime := t), currentTime := t)
  }

  /** `ended`: the element stops at the end. */
  function Ended(s: Session): (r: Session)
    ensures Embedded(s) ==> r == s
    ensures !Embedded(s) ==>
      && !r.isPlaying && r.video.paused
      && r.(isPlaying := s.isPlaying, video := s.video) == s && r.video.(paused := s.video.paused) == s.video
  {
    if Embedded(s) then s
    else s.(video := s.video.(paused := true), isPlaying := false)
  }

  /** `waiting` and `playing`: buffering starts and stops. */
  function BufferingChanged(s: Session, buffering: bool): (r: Session)
    ensures Embedded(s) ==> r == s
    ensures !Embedded(s) ==> r.isBuffering == buffering && r.(isBuffering := s.isBuffering) == s
  {
    if Embedded(s) then s else s.(isBuffering := buffering)
  }

  /** `error`: the source could not be loaded. */
  function LoadFailed(s: Session): (r: Session)
    ensures Embedded(s) ==> r == s
    ensures !Embedded(s) ==>
      && r.error == Some(LoadError) && !r.isBuffering
      && r.(error := s.error, isBuffering := s.isBuffering) == s
  {
    if Embedded(s) then s else s.(error := Some(LoadError), isBuffering := false)
  }

  /** The promise of the element's `play()` was rejected: its handler sets
      the error whatever the backend is by then. */
  function PlayFailed(s: Session): (r: Session)
    ensures r.error == Some(PlayError)
    ensures r.(error := s.error) == s
  {
    s.(error := Some(PlayError))
  }

  // ---------------------------------------------------------------------
  // The keyboard
  // ---------------------------------------------------------------------

  /** The controls a key can trigger. */
  datatype Control = TogglePlayback | SkipBy(seconds: real) | ToggleFullscreen | ToggleMute

  /** The `keydown` listener's `switch (e.key)`. */
  function KeyControl(key: string): (r: Option<Control>)
    ensures r.Some? <==> key in {" ", "ArrowRight", "ArrowLeft", "f", "m"}
    ensures r == Some(TogglePlayback) <==> key == " "
    ensures r == Some(SkipBy(10.0)) <==> key == "ArrowRight"
    ensures r == Some(SkipBy(-10.0)) <==> key == "ArrowLeft"
    ensures r == Some(ToggleFullscreen) <==> key == "f"
    ensures r == Some(ToggleMute) <==> key == "m"
  {
    if key == " " then Some(TogglePlayback)
    else if key == "ArrowRight" then Some(SkipBy(10.0))
    else if key == "ArrowLeft" then Some(SkipBy(-10.0))
    else if key == "f" then Some(ToggleFullscreen)
    else if key == "m" then Some(ToggleMute)
    else None
  }

  function Controlled(s: Session, c: Control): Session {
    match c
    case TogglePlayback => PlayToggled(s)
    case SkipBy(d) => Skipped(s, d)
    case ToggleFullscreen => FullscreenToggled(s)
    case ToggleMute => MuteToggled(s)
  }

  /** A key press: the bound control, or nothing for any other key. */
  function KeyPressed(s: Session, key: string): (r: Session)
    ensures key == " " ==> r == PlayToggled(s)
    ensures key == "ArrowRight" ==> r == Skipped(s, 10.0)
    ensures key == "ArrowLeft" ==> r == Skipped(s, -10.0)
    ensures key == "f" ==> r == FullscreenToggled(s)
    ensures key == "m" ==> r == MuteToggled(s)
    ensures KeyControl(key).None? ==> r == s
  {
    match KeyControl(key)
    case None => s
    case Some(c) => Controlled(s, c)
  }

  // ---------------------------------------------------------------------
  // Every event, and the invariant they keep
  // ---------------------------------------------------------------------

  /** Everything that can happen to a session: user controls (buttons,
      sliders, mouse movement, keys, the mode tabs), the two timers, and
      the native element's and the browser's notifications. */
  datatype Event =
    | ClickPlay
    | ClickMute
    | ClickFullscreen
    | VolumeSlider(v: real)
    | SeekSlider(t: real)
    | SkipButton(seconds: real)
    | MouseMove
    | KeyDown(key: string)
    | SelectMode(m: Mode)
    | AutoPlayTimer
    | HideTimer
    | LoadedMetadata(length: real)
    | TimeUpdate(t: real)
    | MediaEnded
    | MediaWaiting
    | MediaPlaying
    | MediaError
    | PlayRejected
    | FullscreenChange(fullscreen: bool)

  function Apply(s: Session, e: Event): Session {
    match e
    case ClickPlay => PlayToggled(s)
    case ClickMute => MuteToggled(s)
    case ClickFullscreen => FullscreenToggled(s)
    case VolumeSlider(v) => VolumeChanged(s, v)
    case SeekSlider(t) => Seeked(s, t)
    case SkipButton(d) => Skipped(s, d)
    case MouseMove => ControlsReset(s)
    case KeyDown(key) => KeyPressed(s, key)
    case SelectMode(m) => ModeSwitched(s, m)
    case AutoPlayTimer => AutoPlayFired(s)
    case HideTimer => HideTimerFired(s)
    case LoadedMetadata(length) => MetadataLoaded(s, length)
    case TimeUpdate(t) => TimeUpdated(s, t)
    case MediaEnded => Ended(s)
    case MediaWaiting => BufferingChanged(s, true)
    case MediaPlaying => BufferingChanged(s, false)
    case MediaError => LoadFailed(s)
    case PlayRejected => PlayFailed(s)
    case FullscreenChange(fullscreen) => FullscreenChanged(s, fullscreen)
  }

  /** The events a user produces directly. */
  predicate IsInput(e: Event) {
    e.ClickPlay? || e.ClickMute? || e.ClickFullscreen? || e.VolumeSlider? || e.SeekSlider?
    || e.SkipButton? || e.MouseMove? || e.KeyDown?
  }

  /** The events in order. */
  function Run(s: Session, es: seq<Event>): Session
    decreases |es|
  {
    if es == [] then s else Run(Apply(s, es[0]), es[1..])
  }

  /** Running two sequences one after the other is running their
      concatenation. */
  lemma {:induction false} RunAppend(s: Session, a: seq<Event>, b: seq<Event>)
    ensures Run(s, a + b) == Run(Run(s, a), b)
    decreases |a|
  {
    if a == [] {
      assert a + b == b;
    } else {
      assert (a + b)[0] == a[0] && (a + b)[1..] == a[1..] + b;
      RunAppend(Apply(s, a[0]), a[1..], b);
    }
  }

  /** Inputs the user interface can produce: the volume slider's range is
      [0, 1]. */
  predicate Possible(e: Event) {
    e.VolumeSlider? ==> 0.0 <= e.v <= 1.0
  }

  /** Both volumes stay in [0, 1], and the controls are hidden only once
      the hide timer has fired. */
  predicate Valid(s: Session) {
    && 0.0 <= s.volume <= 1.0
    && 0.0 <= s.video.volume <= 1.0
    && (!s.showControls ==> !s.hideTimerArmed)
  }

  lemma InitialValid(trailerKey: Option<string>, hasStreamingSource: bool)
    ensures Valid(Initial(trailerKey, hasStreamingSource))
  {
  }

  lemma {:induction false} StepValid(s: Session, e: Event)
    requires Valid(s) && Possible(e)
    ensures Valid(Apply(s, e))
  {
    if IsInput(e) {
      InputValid(s, e);
    } else if e.SelectMode? || e.AutoPlayTimer? || e.HideTimer? {
      TimerValid(s, e);
    } else if e.LoadedMetadata? || e.TimeUpdate? || e.MediaEnded? {
      MediaValid(s, e);
    } else {
      StatusValid(s, e);
    }
  }

  /** The user's controls keep the session valid. */
  lemma InputValid(s: Session, e: Event)
    requires Valid(s) && Possible(e)
    requires IsInput(e)
    ensures Valid(Apply(s, e))
  {
    match e
    case ClickPlay => ControlValid(s, TogglePlayback);
    case ClickMute => ControlValid(s, ToggleMute);
    case ClickFullscreen => ControlValid(s, ToggleFullscreen);
    case VolumeSlider(v) => assert Valid(VolumeChanged(s, v));
    case SeekSlider(t) => assert Valid(Seeked(s, t));
    case SkipButton(d) => ControlValid(s, SkipBy(d));
    case MouseMove =>
    case KeyDown(key) =>
      match KeyControl(key) {
        case None =>
        case Some(c) => ControlValid(s, c);
      }
  }

  /** Mode switches and timers keep the session valid. */
  lemma TimerValid(s: Session, e: Event)
    requires Valid(s)
    requires e.SelectMode? || e.AutoPlayTimer? || e.HideTimer?
    ensures Valid(Apply(s, e))
  {
    match e
    case SelectMode(m) => assert Valid(ModeSwitched(s, m));
    case AutoPlayTimer => ControlValid(s.(autoPlayArmed := false), TogglePlayback);
    case HideTimer => assert Valid(HideTimerFired(s));
  }

  /** The element's progress notifications keep the session valid. */
  lemma MediaValid(s: Session, e: Event)
    requires Valid(s)
    requires e.LoadedMetadata? || e.TimeUpdate? || e.MediaEnded?
    ensures Valid(Apply(s, e))
  {
    match e
    case LoadedMetadata(length) => MetadataValid(s, length);
    case TimeUpdate(t) => TimeUpdateValid(s, t);
    case MediaEnded => EndedValid(s);
  }

  lemma MetadataValid(s: Session, length: real)
    requires Valid(s)
    ensures Valid(MetadataLoaded(s, length))
  {
  }

  lemma TimeUpdateValid(s: Session, t: real)
    requires Valid(s)
    ensures Valid(TimeUpdated(s, t))
  {
  }

  lemma EndedValid(s: Session)
    requires Valid(s)
    ensures Valid(Ended(s))
  {
  }

  /** Buffering, load failure and fullscreen notifications keep the session
      valid. */
  lemma StatusValid(s: Session, e: Event)
    requires Valid(s)
    requires e.MediaWaiting? || e.MediaPlaying? || e.MediaError? || e.PlayRejected? || e.FullscreenChange?
    ensures Valid(Apply(s, e))
  {
    match e
    case MediaWaiting =>
    case MediaPlaying =>
    case MediaError =>
    case PlayRejected =>
    case FullscreenChange(fullscreen) =>
  }

  lemma ControlValid(s: Session, c: Control)
    requires Valid(s)
    ensures Valid(Controlled(s, c))
  {
    match c
    case TogglePlayback =>
    case SkipBy(d) =>
    case ToggleFullscreen =>
    case ToggleMute =>
  }

  lemma {:induction false} RunValid(s: Session, es: seq<Event>)
    requires Valid(s)
    requires forall i :: 0 <= i < |es| ==> Possible(es[i])
    ensures Valid(Run(s, es))
    decreases |es|
  {
    if es != [] {
      StepValid(s, es[0]);
      RunValid(Apply(s, es[0]), es[1..]);
    }
  }

  // ---------------------------------------------------------------------
  // What the handlers promise
  // ---------------------------------------------------------------------

  /** While there is an error every transport control is inert, whatever
      its argument; only fullscreen still resets the controls timer. */
  lemma ErrorFreezesTransport(s: Session, v: real, t: real, d: real)
    requires s.error.Some?
    ensures PlayToggled(s) == s && MuteToggled(s) == s
    ensures VolumeChanged(s, v) == s && Seeked(s, t) == s && Skipped(s, d) == s
    ensures FullscreenToggled(s).showControls && FullscreenToggled(s).hideTimerArmed
  {
  }

  /** Each transport control drives exactly one backend: on the embed it
      posts one command and leaves the element alone; on the native element
      it posts nothing. */
  lemma BackendDispatch(s: Session, v: real, t: real, d: real)
    ensures Embedded(s) ==>
      && PlayToggled(s).video == s.video && MuteToggled(s).video == s.video
      && VolumeChanged(s, v).video == s.video && Seeked(s, t).video == s.video
      && Skipped(s, d).video == s.video
    ensures Embedded(s) && s.error.None? ==>
      && |PlayToggled(s).sent| == |s.sent| + 1 && |MuteToggled(s).sent| == |s.sent| + 1
      && |VolumeChanged(s, v).sent| == |s.sent| + 1 && |Seeked(s, t).sent| == |s.sent| + 1
      && |Skipped(s, d).sent| == |s.sent| + 1
    ensures !Embedded(s) ==>
      && PlayToggled(s).sent == s.sent && MuteToggled(s).sent == s.sent
      && VolumeChanged(s, v).sent == s.sent && Seeked(s, t).sent == s.sent
      && Skipped(s, d).sent == s.sent
  {
  }

  /** The same holds for the keyboard: every key but `f` is inert. */
  lemma ErrorFreezesKeys(s: Session, key: string)
    requires s.error.Some? && key != "f"
    ensures KeyPressed(s, key) == s
  {
  }

  /** Once set, the error stays until the mode changes: no other event
      clears it. */
  lemma {:induction false} ErrorPersists(s: Session, es: seq<Event>)
    requires s.error.Some?
    requires forall i :: 0 <= i < |es| ==> !es[i].SelectMode?
    ensures Run(s, es).error.Some?
    decreases |es|
  {
    if es != [] {
      var e := es[0];
      if IsInput(e) {
        InputKeepsError(s, e);
      } else {
        NotificationKeepsError(s, e);
      }
      ErrorPersists(Apply(s, e), es[1..]);
    }
  }

  lemma InputKeepsError(s: Session, e: Event)
    requires s.error.Some? && IsInput(e)
    ensures Apply(s, e).error.Some?
  {
    match e
    case KeyDown(key) =>
      match KeyControl(key) {
        case None =>
        case Some(c) =>
      }
    case _ =>
  }

  lemma NotificationKeepsError(s: Session, e: Event)
    requires s.error.Some? && !IsInput(e) && !e.SelectMode?
    ensures Apply(s, e).error.Some?
  {
    match e
    case AutoPlayTimer =>
    case HideTimer =>
    case LoadedMetadata(length) =>
    case TimeUpdate(t) =>
    case MediaEnded =>
    case MediaWaiting =>
    case MediaPlaying =>
    case MediaError =>
    case PlayRejected =>
    case FullscreenChange(fullscreen) =>
  }

  /** Toggling play twice restores `isPlaying` on either backend. */
  lemma TogglePlayTwice(s: Session)
    requires s.error.None?
    ensures PlayToggled(PlayToggled(s)).isPlaying == s.isPlaying
    ensures Embedded(s) ==> PlayToggled(PlayToggled(s)).sent == s.sent + [if s.isPlaying then PauseVideo else PlayVideo, if s.isPlaying then PlayVideo else PauseVideo]
  {
  }

  /** Toggling mute twice restores `isMuted` and the element's `muted`. */
  lemma ToggleMuteTwice(s: Session)
    requires s.error.None?
    requires !Embedded(s) ==> s.video.muted == s.isMuted
    ensures MuteToggled(MuteToggled(s)).isMuted == s.isMuted
    ensures MuteToggled(MuteToggled(s)).video == s.video
    ensures MuteToggled(MuteToggled(s)).volume == s.volume
  {
  }

  /** Muting by volume: a zero volume mutes and a non-zero one unmutes, on
      either backend; unmuting with the button afterwards keeps the volume
      at zero. */
  lemma VolumeDecidesMute(s: Session, v: real)
    requires s.error.None? && 0.0 <= v <= 1.0
    ensures VolumeChanged(s, v).isMuted <==> v == 0.0
    ensures VolumeChanged(s, v).volume == v
    ensures v == 0.0 ==> var u := MuteToggled(VolumeChanged(s, v)); !u.isMuted && u.volume == 0.0
  {
  }

  /** Skipping on the embed is a seek to the clamped target; a skip that
      stays inside [0, duration] moves by exactly `d`. */
  lemma SkipOnEmbed(s: Session, d: real)
    requires s.error.None? && Embedded(s)
    requires 0.0 <= s.currentTime + d <= s.duration
    ensures Skipped(s, d).currentTime == s.currentTime + d
    ensures Skipped(s, d).sent == s.sent + [SeekTo(s.currentTime + d)]
  {
  }

  /** Skipping back by 10 from the start, or forward by 10 from the end,
      stays at the boundary. */
  lemma SkipStopsAtBounds(s: Session)
    requires s.error.None? && Embedded(s) && s.duration >= 0.0
    ensures s.currentTime == 0.0 ==> Skipped(s, -10.0).currentTime == 0.0
    ensures s.currentTime == s.duration ==> Skipped(s, 10.0).currentTime == s.duration
  {
  }

  /** Seeking sets the position exactly, even outside [0, duration]. */
  lemma SeekDoesNotClamp(s: Session, t: real)
    requires s.error.None?
    requires t < 0.0 || t > s.duration
    ensures Seeked(s, t).currentTime == t
    ensures !Embedded(s) ==> Seeked(s, t).video.currentTime == t
  {
  }

  /** A mode switch followed by its auto-play timer ends up playing, with
      the error cleared, whatever the state before. */
  lemma SwitchThenAutoPlay(s: Session, m: Mode)
    requires m != s.mode
    ensures var r := AutoPlayFired(ModeSwitched(s, m));
      && r.isPlaying && r.mode == m && r.error.None? && !r.autoPlayArmed
      && r.showControls && r.hideTimerArmed
    ensures UsesEmbed(m, s.trailerKey) ==>
      AutoPlayFired(ModeSwitched(s, m)).sent == s.sent + [PlayVideo]
    ensures !UsesEmbed(m, s.trailerKey) ==>
      !AutoPlayFired(ModeSwitched(s, m)).video.paused
  {
  }

  /** Once playing, an interaction followed by the hide timer hides the
      controls; while paused they stay. */
  lemma InteractionThenHide(s: Session)
    ensures HideTimerFired(ControlsReset(s)).showControls == !s.isPlaying
    ensures !HideTimerFired(ControlsReset(s)).hideTimerArmed
  {
  }

  /** Switching mode twice to the same mode is the same as once. */
  lemma ModeSwitchIdempotent(s: Session, m: Mode)
    ensures ModeSwitched(ModeSwitched(s, m), m) == ModeSwitched(s, m)
  {
  }

  /** Space pressed twice restores `isPlaying`; with an error it does
      nothing. */
  lemma SpaceTwice(s: Session)
    ensures KeyPressed(KeyPressed(s, " "), " ").isPlaying == s.isPlaying
    ensures s.error.None? ==> KeyPressed(s, " ").isPlaying == !s.isPlaying
  {
  }

  /** Starting playback and then letting the hide timer fire hides the
      controls. */
  lemma PlayThenHide(s: Session)
    requires s.error.None? && !s.isPlaying
    ensures PlayToggled(s).isPlaying
    ensures !HideTimerFired(PlayToggled(s)).showControls
  {
  }

  // ---------------------------------------------------------------------
  // Handlers that read an earlier render's state, as the component has them
  // ---------------------------------------------------------------------

  // A React handler reads the state of the render that created it. The
  // functions above read the current state; these take the render `view`
  // the handler belongs to and the current state `s` it acts on (refs and
  // the element are always current).

  /** `togglePlay` of render `view` run on state `s`. The ref of the
      backend `view` used is empty when `s` has the other backend mounted. */
  function TogglePlayIn(view: Session, s: Session): (r: Session)
    ensures view.error.Some? || Embedded(view) != Embedded(s) ==> r == s
    ensures view.error.None? && Embedded(view) == Embedded(s) ==> r.isPlaying == !view.isPlaying
  {
    if view.error.Some? || Embedded(view) != Embedded(s) then s
    else if Embedded(view) then
      s.(sent := s.sent + [if view.isPlaying then PauseVideo else PlayVideo], isPlaying := !view.isPlaying,
         showControls := true, hideTimerArmed := true)
    else
      s.(video := s.video.(paused := view.isPlaying), isPlaying := !view.isPlaying, showControls := true,
         hideTimerArmed := true)
  }

  /** `toggleMute` of render `view` run on state `s`. */
  function ToggleMuteIn(view: Session, s: Session): (r: Session)
    ensures view.error.Some? || Embedded(view) != Embedded(s) ==> r == s
    ensures view.error.None? && Embedded(view) == Embedded(s) ==> r.isMuted == !view.isMuted
  {
    if view.error.Some? || Embedded(view) != Embedded(s) then s
    else if Embedded(view) then
      s.(sent := s.sent + [if view.isMuted then UnMute else Mute], isMuted := !view.isMuted, showControls := true,
         hideTimerArmed := true)
    else
      s.(video := s.video.(muted := !view.isMuted), isMuted := !view.isMuted, showControls := true,
         hideTimerArmed := true)
  }

  /** `skip(d)` of render `view` run on state `s`: on the embed the target
      comes from the render's `currentTime` and `duration`. */
  function SkipIn(view: Session, s: Session, d: real): (r: Session)
    ensures view.error.Some? || Embedded(view) != Embedded(s) ==> r == s
    ensures view.error.None? && Embedded(view) && Embedded(s) ==>
      r.currentTime == Clamp(view.currentTime + d, view.duration)
  {
    if view.error.Some? || Embedded(view) != Embedded(s) then s
    else if Embedded(view) then
      var t := Clamp(view.currentTime + d, view.duration);
      s.(sent := s.sent + [SeekTo(t)], currentTime := t, showControls := true, hideTimerArmed := true)
    else match s.video.duration
      case None => s
      case Some(length) =>
        ControlsReset(s.(video := s.video.(currentTime := Clamp(s.video.currentTime + d, length))))
  }

  /** The `keydown` listener as registered: the effect has no dependencies,
      so the handlers it calls are those of the first render, `mount`. */
  function KeyPressedAsWritten(mount: Session, s: Session, key: string): (r: Session)
    ensures KeyControl(key).None? ==> r == s
    ensures key == "f" ==> r == FullscreenToggled(s)
    ensures key != "f" && (mount.error.Some? || Embedded(mount) != Embedded(s)) ==> r == s
    ensures key == " " && mount.error.None? && Embedded(mount) == Embedded(s) ==> r.isPlaying == !mount.isPlaying
    ensures key == "m" && mount.error.None? && Embedded(mount) == Embedded(s) ==> r.isMuted == !mount.isMuted
    ensures (key == "ArrowRight" || key == "ArrowLeft") && mount.error.None? && Embedded(mount) && Embedded(s) ==>
      r.currentTime == Clamp(mount.currentTime + (if key == "ArrowRight" then 10.0 else -10.0), mount.duration)
  {
    if key == " " then TogglePlayIn(mount, s)
    else if key == "ArrowRight" then SkipIn(mount, s, 10.0)
    else if key == "ArrowLeft" then SkipIn(mount, s, -10.0)
    else if key == "f" then FullscreenToggled(s)
    else if key == "m" then ToggleMuteIn(mount, s)
    else s
  }

  /** Read from the current render, the handlers are the model's. */
  lemma CurrentRenderHandlers(s: Session, d: real, key: string)
    ensures TogglePlayIn(s, s) == PlayToggled(s)
    ensures ToggleMuteIn(s, s) == MuteToggled(s)
    ensures SkipIn(s, s, d) == Skipped(s, d)
    ensures KeyPressedAsWritten(s, s, key) == KeyPressed(s, key)
  {
  }

  /** Space pressed twice, as written: both presses run the mount render's
      `togglePlay`, which saw a paused player, so playback never pauses;
      the model's `KeyPressed` toggles back (`TogglePlayTwice`). */
  lemma SpaceTwiceAsWritten(trailerKey: Option<string>, hasStreamingSource: bool)
    ensures var mount := Initial(trailerKey, hasStreamingSource);
      && KeyPressedAsWritten(mount, KeyPressedAsWritten(mount, mount, " "), " ").isPlaying
      && !KeyPressed(KeyPressed(mount, " "), " ").isPlaying
  {
  }

  /** A key after a load error, as written: the mount render had no error,
      so space still starts the element; the model ignores it
      (`ErrorFreezesKeys`). */
  lemma SpaceAfterErrorAsWritten(trailerKey: Option<string>)
    ensures var mount := Initial(trailerKey, true);
      var failed := LoadFailed(mount);
      && failed.error.Some?
      && KeyPressedAsWritten(mount, failed, " ").isPlaying
      && !KeyPressedAsWritten(mount, failed, " ").video.paused
      && KeyPressed(failed, " ") == failed
  {
  }

  /** The auto-play timer, as written: the mode-reset effect schedules the
      `togglePlay` of the render that switched the mode, before its own
      reset; that render still has the old `isPlaying` and `error`. */
  function AutoPlayFiredAsWritten(before: Session, m: Mode): (r: Session)
    requires m != before.mode
    ensures before.error.Some? ==> r == ModeSwitched(before, m).(autoPlayArmed := false)
    ensures before.error.None? ==> r.isPlaying == !before.isPlaying && r.error.None? && r.mode == m
  {
    TogglePlayIn(before.(mode := m), ModeSwitched(before, m).(autoPlayArmed := false))
  }

  /** Switching modes while playing, or while an error shows, as written:
      the auto-play leaves the player paused; in the model it plays
      (`SwitchThenAutoPlay`). */
  lemma SwitchWhilePlayingAsWritten(s: Session, m: Mode)
    requires m != s.mode && (s.isPlaying || s.error.Some?)
    ensures !AutoPlayFiredAsWritten(s, m).isPlaying
    ensures AutoPlayFired(ModeSwitched(s, m)).isPlaying
  {
    SwitchThenAutoPlay(s, m);
  }

  /** The hide timer, as written: it tests the `isPlaying` of the render
      that armed it, `armedWhilePlaying`. */
  function HideTimerFiredAsWritten(armedWhilePlaying: bool, s: Session): (r: Session)
    ensures !r.hideTimerArmed
    ensures r.showControls == (s.showControls && !armedWhilePlaying)
  {
    s.(hideTimerArmed := false, showControls := if armedWhilePlaying then false else s.showControls)
  }

  /** Pressing play, as written: the timer armed by that press saw the
      player paused, so the controls stay while it plays; in the model they
      hide (`PlayThenHide`). */
  lemma PlayThenHideAsWritten(s: Session)
    requires s.error.None? && !s.isPlaying
    ensures PlayToggled(s).isPlaying
    ensures HideTimerFiredAsWritten(s.isPlaying, PlayToggled(s)).showControls
    ensures !HideTimerFired(PlayToggled(s)).showControls
  {
  }

  // ---------------------------------------------------------------------
  // The component as an object
  // ---------------------------------------------------------------------

  /** The native `<video>` element, changed in place by the handlers. */
  class MediaElement {
    var currentTime: real
    var duration: Option<real>
    var volume: real
    var muted: bool
    var paused: bool

    function State(): Element
      reads this
    {
      Element(currentTime, duration, volume, muted, paused)
    }

    constructor ()
      ensures State() == FreshElement
    {
      currentTime, duration, volume, muted, paused := 0.0, None, 1.0, false, true;
    }

    /** The element is replaced by a freshly mounted one. */
    method Remount()
      modifies this
      ensures State() == FreshElement
    {
      currentTime, duration, volume, muted, paused := 0.0, None, 1.0, false, true;
    }

    method Play()
      modifies this
      ensures State() == old(State()).(paused := false)
    {
      paused := false;
    }

    method Pause()
      modifies this
      ensures State() == old(State()).(paused := true)
    {
      paused := true;
    }

    /** Assignment to `currentTime` (a seek). */
    method Seek(t: real)
      modifies this
      ensures State() == old(State()).(currentTime := t)
    {
      currentTime := t;
    }

    /** Assignment to `volume`; the setter throws outside [0, 1]. */
    method SetVolume(v: real)
      requires 0.0 <= v <= 1.0
      modifies this
      ensures State() == old(State()).(volume := v)
    {
      volume := v;
    }

    method SetMuted(m: bool)
      modifies this
      ensures State() == old(State()).(muted := m)
    {
      muted := m;
    }
  }

  /** The mounted `VideoPlayer`. */
  class Player {
    const trailerKey: Option<string>
    var isPlaying: bool
    var currentTime: real
    var duration: real
    var volume: real
    var isMuted: bool
    var isFullscreen: bool
    var showControls: bool
    var isBuffering: bool
    var playbackMode: Mode
    var error: Option<string>
    var video: MediaElement
    var sent: seq<EmbedCommand>
    var hideTimerArmed: bool
    var autoPlayArmed: bool

    function Snapshot(): Session
      reads this, video
    {
      Session(trailerKey, isPlaying, currentTime, duration, volume, isMuted, isFullscreen, showControls,
        isBuffering, playbackMode, error, video.State(), sent, hideTimerArmed, autoPlayArmed)
    }

    /** Mounting: the initial state, and the mode-reset effect scheduling
        the first auto-play. */
    constructor (trailerKey: Option<string>, hasStreamingSource: bool)
      ensures fresh(video)
      ensures Snapshot() == Initial(trailerKey, hasStreamingSource)
    {
      this.trailerKey := trailerKey;
      isPlaying, currentTime, duration, volume := false, 0.0, 0.0, 1.0;
      isMuted, isFullscreen, showControls, isBuffering := false, false, true, true;
      playbackMode := if hasStreamingSource then FullMovieMode else Trailer;
      error := None;
      video := new MediaElement();
      sent := [];
      hideTimerArmed := false;
      autoPlayArmed := true;
    }

    method ResetControlsTimeout()
      modifies this
      ensures video == old(video)
      ensures Snapshot() == ControlsReset(old(Snapshot()))
    {
      showControls := true;
      hideTimerArmed := true;
    }

    method TogglePlay()
      modifies this, video
      ensures video == old(video)
      ensures Snapshot() == PlayToggled(old(Snapshot()))
    {
      if error.Some? {
        return;
      }
      if UsesEmbed(playbackMode, trailerKey) {
        sent := sent + [if isPlaying then PauseVideo else PlayVideo];
        isPlaying := !isPlaying;
        ResetControlsTimeout();
        return;
      }
      if isPlaying {
        video.Pause();
      } else {
        video.Play();
      }
      isPlaying := !isPlaying;
      ResetControlsTimeout();
    }

    method ToggleMute()
      modifies this, video
      ensures video == old(video)
      ensures Snapshot() == MuteToggled(old(Snapshot()))
    {
      if error.Some? {
        return;
      }
      if UsesEmbed(playbackMode, trailerKey) {
        sent := sent + [if isMuted then UnMute else Mute];
        isMuted := !isMuted;
        ResetControlsTimeout();
        return;
      }
      video.SetMuted(!isMuted);
      isMuted := !isMuted;
      ResetControlsTimeout();
    }

    method ToggleFullscreen()
      modifies this
      ensures video == old(video)
      ensures Snapshot() == FullscreenToggled(old(Snapshot()))
    {
      ResetControlsTimeout();
    }

    method HandleVolumeChange(v: real)
      modifies this, video
      ensures video == old(video)
      ensures Snapshot() == VolumeChanged(old(Snapshot()), v)
    {
      if error.Some? {
        return;
      }
      if UsesEmbed(playbackMode, trailerKey) {
        sent := sent + [SetVolume(v * 100.0)];
        volume := v;
        isMuted := v == 0.0;
        ResetControlsTimeout();
        return;
      }
      if !(0.0 <= v <= 1.0) {
        return;
      }
      video.SetVolume(v);
      volume := v;
      isMuted := v == 0.0;
      ResetControlsTimeout();
    }

    method HandleSeek(t: real)
      modifies this, video
      ensures video == old(video)
      ensures Snapshot() == Seeked(old(Snapshot()), t)
    {
      if error.Some? {
        return;
      }
      if UsesEmbed(playbackMode, trailerKey) {
        sent := sent + [SeekTo(t)];
        currentTime := t;
        ResetControlsTimeout();
        return;
      }
      video.Seek(t);
      currentTime := t;
      ResetControlsTimeout();
    }

    method Skip(d: real)
      modifies this, video
      ensures video == old(video)
      ensures Snapshot() == Skipped(old(Snapshot()), d)
    {
      if error.Some? {
        return;
      }
      if UsesEmbed(playbackMode, trailerKey) {
        HandleSeek(Clamp(currentTime + d, duration));
        return;
      }
      match video.duration
      case None =>
        return;
      case Some(length) =>
        video.Seek(Clamp(video.currentTime + d, length));
        ResetControlsTimeout();
    }

    method OnFullscreenChange(fullscreen: bool)
      modifies this
      ensures video == old(video)
      ensures Snapshot() == FullscreenChanged(old(Snapshot()), fullscreen)
    {
      isFullscreen := fullscreen;
    }

    /** The tabs' `onValueChange`; React runs the reset effect only when the
        mode actually changes. */
    method SetPlaybackMode(m: Mode)
      modifies this, video
      ensures video == old(video)
      ensures Snapshot() == ModeSwitched(old(Snapshot()), m)
    {
      if m == playbackMode {
        return;
      }
      if UsesEmbed(playbackMode, trailerKey) != UsesEmbed(m, trailerKey) {
        RemountVideo();
      }
      ResetForMode(m);
    }

    /** The backend changed: a new `<video>` element is mounted. */
    method RemountVideo()
      modifies video
      ensures video == old(video)
      ensures Snapshot() == old(Snapshot()).(video := FreshElement)
    {
      video.Remount();
    }

    /** The body of the mode-reset effect. */
    method ResetForMode(m: Mode)
      modifies this
      ensures video == old(video)
      ensures Snapshot() == old(Snapshot()).(mode := m, isPlaying := false, currentTime := 0.0, isBuffering := true,
        error := None, autoPlayArmed := true)
    {
      playbackMode, isPlaying, currentTime, isBuffering, error, autoPlayArmed := m, false, 0.0, true, None, true;
    }

    method OnAutoPlayTimer()
      modifies this, video
      ensures video == old(video)
      ensures Snapshot() == AutoPlayFired(old(Snapshot()))
    {
      if !autoPlayArmed {
        return;
      }
      autoPlayArmed := false;
      TogglePlay();
    }

    method OnHideTimer()
      modifies this
      ensures video == old(video)
      ensures Snapshot() == HideTimerFired(old(Snapshot()))
    {
      if !hideTimerArmed {
        return;
      }
      hideTimerArmed := false;
      if isPlaying {
        showControls := false;
      }
    }

    method OnLoadedMetadata(length: real)
      modifies this, video
      ensures video == old(video)
      ensures Snapshot() == MetadataLoaded(old(Snapshot()), length)
    {
      if UsesEmbed(playbackMode, trailerKey) {
        return;
      }
      video.duration := Some(length);
      duration := video.duration.value;
      isBuffering := false;
    }

    method OnTimeUpdate(t: real)
      modifies this, video
      ensures video == old(video)
      ensures Snapshot() == TimeUpdated(old(Snapshot()), t)
    {
      if UsesEmbed(playbackMode, trailerKey) {
        return;
      }
      video.currentTime := t;
      currentTime := video.currentTime;
    }

    method OnEnded()
      modifies this, video
      ensures video == old(video)
      ensures Snapshot() == Ended(old(Snapshot()))
    {
      if UsesEmbed(playbackMode, trailerKey) {
        return;
      }
      video.paused := true;
      isPlaying := false;
    }

    method OnWaiting()
      modifies this
      ensures video == old(video)
      ensures Snapshot() == BufferingChanged(old(Snapshot()), true)
    {
      if UsesEmbed(playbackMode, trailerKey) {
        return;
      }
      isBuffering := true;
    }

    method OnPlaying()
      modifies this
      ensures video == old(video)
      ensures Snapshot() == BufferingChanged(old(Snapshot()), false)
    {
      if UsesEmbed(playbackMode, trailerKey) {
        return;
      }
      isBuffering := false;
    }

    method OnError()
      modifies this
      ensures video == old(video)
      ensures Snapshot() == LoadFailed(old(Snapshot()))
    {
      if UsesEmbed(playbackMode, trailerKey) {
        return;
      }
      error := Some(LoadError);
      isBuffering := false;
    }

    /** The rejection handler of `video.play()`. */
    method OnPlayRejected()
      modifies this
      ensures video == old(video)
      ensures Snapshot() == PlayFailed(old(Snapshot()))
    {
      error := Some(PlayError);
    }

    method OnKeyDown(key: string)
      modifies this, video
      ensures video == old(video)
      ensures Snapshot() == KeyPressed(old(Snapshot()), key)
    {
      match KeyControl(key)
      case None =>
      case Some(TogglePlayback) =>
        TogglePlay();
      case Some(SkipBy(d)) =>
        Skip(d);
      case Some(ToggleFullscreen) =>
        ToggleFullscreen();
      case Some(ToggleMute) =>
        ToggleMute();
    }
  }
}

# basestream movie sources and video player, in Dafny

This project models the core of basestream, a Next.js movie site:

- **`/api/movie-sources`** is a route over a fixed catalog of ten public-domain films.
  - `GET` resolves a title, with an optional year and TMDB id, to one catalog entry. It tries three tiers in order: TMDB id, then title with year, then title overlap. When none matches it suggests up to five similar entries.
  - `POST` picks an entry by `id % 10`.
- **The `VideoPlayer` component** plays either a YouTube trailer (an embed driven by `postMessage` commands) or a full movie (a native `<video>` element).
  - The movie is the `streamingSource` prop, or a fallback picked by `parseInt(videoId) % 5`.
  - The component keeps React state for play, mute, volume, position, fullscreen, buffering, error and the playback mode.
  - It reacts to buttons, sliders, the keyboard, two timers and the element's events.
  - It formats times as `MM:SS` or `HH:MM:SS`.

Modules:

- `Options`: the `Option` type.
- `JsBuiltins`: the JavaScript built-ins the core relies on. These are `toLowerCase` (ASCII), `includes`, `split`/`join` on one character, `padStart`, `toString`, `Number.parseInt`, and `%` on integers and on numbers.
- `MovieSources`: the catalog, `findMovieSource`, `findSimilarMovies`, `GET` and `POST`. The catalog is a parameter of the search functions, so their properties hold for any catalog; `GET` and `POST` use the real one.
- `TimeFormat`: `formatTime` and a reader `ParseClock` for its output.
- `VideoPlayer`: the player, in two forms.
  - `Session` is the whole state as a value. Every handler is a function from the old state to the new one, and `Event`/`Apply`/`Run` replay any sequence of events.
  - These handlers, `Apply`, `Run` and the methods of `Player` all read the current state. The component's keyboard listener, auto-play timer and hide timer instead read the state of an earlier render (see Findings). At those three places the main model therefore gives the intended behaviour, not the code as written.
  - The code as written is modelled separately, by `TogglePlayIn`, `ToggleMuteIn`, `SkipIn`, `KeyPressedAsWritten`, `AutoPlayFiredAsWritten` and `HideTimerFiredAsWritten`. Nothing in `Apply`, `Run` or `Player` uses them.
  - Class `Player` holds the same state in fields, with a `MediaElement` object for the `<video>` element. Each of its methods updates the fields step by step and is proved to end in exactly the state its function gives.

## Model

| member | source | states |
|---|---|---|
| JsBuiltins.Lower | app/api/movie-sources/route.ts:97 | `toLowerCase` keeps the length and lower-cases each character. |
| JsBuiltins.IncludesIffOccurs | app/api/movie-sources/route.ts:102 | `s.includes(t)` holds exactly when `t` occurs at some position of `s`. |
| JsBuiltins.Includes | app/api/movie-sources/route.ts:102 | `s.includes(t)`. No contract of its own; its meaning is stated by `JsBuiltins.IncludesIffOccurs`. |
| JsBuiltins.Split | app/api/movie-sources/route.ts:117 | `split(sep)` gives at least one piece, and no piece contains the separator. |
| JsBuiltins.JoinSplit | app/api/movie-sources/route.ts:117 | Joining the pieces of a split on the same separator gives back the string. |
| JsBuiltins.SplitJoin | components/video-player.tsx:378-380 | Splitting a join of separator-free pieces gives back the pieces. |
| JsBuiltins.SplitAfterWord | components/video-player.tsx:380 | Splitting a separator-free word followed by a tail glues the word onto the tail's first piece. |
| JsBuiltins.Join | components/video-player.tsx:380 | `ws.join(sep)`. No contract of its own; it is the inverse of `split`, stated by `JsBuiltins.JoinSplit` and `JsBuiltins.SplitJoin`. |
| JsBuiltins.PadStart | components/video-player.tsx:378 | `s.padStart(width, fill)`. No contract of its own; its shape is stated by `JsBuiltins.PadStartShape`. |
| JsBuiltins.PadStartShape | components/video-player.tsx:378 | `padStart(width, fill)` reaches at least `width`, keeps the string as its suffix and fills the front with `fill`. |
| JsBuiltins.NatToStringDigits | components/video-player.tsx:378 | `n.toString()` is a non-empty digit string whose value is `n`, one digit below 10 and two below 100. |
| JsBuiltins.IntToString | components/video-player.tsx:378 | `n.toString()` for any integer. No contract of its own; `JsBuiltins.ParseIntToString` states that `parseInt` reads it back. |
| JsBuiltins.TrimStart | components/video-player.tsx:87 | `parseInt` first drops leading white space, and only white space: the result is a suffix of the input that does not start with white space, and every dropped character is white space (the ECMAScript set, Unicode spaces and line terminators included). |
| JsBuiltins.DigitPrefix | components/video-player.tsx:87 | The digits `parseInt` reads are the longest run of digits at the front. |
| JsBuiltins.ParseInt | components/video-player.tsx:87 | `Number.parseInt(s)` is `NaN` (here `None`) exactly when no digit follows the white space and the optional sign. |
| JsBuiltins.ParseIntValue | components/video-player.tsx:87 | Otherwise it is the value of that digit run, negated after a minus sign. |
| JsBuiltins.TrimSpaces | components/video-player.tsx:87 | White space in front of text that does not start with white space is dropped, and nothing more. |
| JsBuiltins.DigitPrefixStops | components/video-player.tsx:87 | The digit run ends at the first character that is not a digit. |
| JsBuiltins.ParseIntReadsLeadingDigits | components/video-player.tsx:87 | For any white space, optional `+`/`-`, digit run and text that does not continue the run (`" +12abc"`), `parseInt` gives the signed value of the digits. |
| JsBuiltins.ParseIntToString | app/api/movie-sources/route.ts:129-130 | `parseInt` reads back the decimal text of every integer, negative ones included. |
| JsBuiltins.JsRem | app/api/movie-sources/route.ts:168 | JavaScript `%` on integers with a positive divisor `n`: the remainder lies strictly between `-n` and `n`, differs from the dividend by a multiple of `n`, and is zero or has the dividend's sign. |
| JsBuiltins.JsRemUnique | app/api/movie-sources/route.ts:168 | Those three facts leave one candidate: any `r` meeting them is `a % n`. |
| JsBuiltins.Trunc | components/video-player.tsx:375-376 | The truncation inside the number `%` (`Math.trunc`): the integer next to `x` on the side of zero: within 1 below `x` for `x >= 0`, within 1 above it for `x < 0`. |
| JsBuiltins.JsFmod | components/video-player.tsx:375-376 | `x % y` on numbers with `y > 0` is a remainder: `x` minus it is `y` times `Math.trunc(x / y)`, a whole number characterised by `JsBuiltins.Trunc`. It lies strictly between `-y` and `y` and is zero or has the sign of `x`. |
| JsBuiltins.JsRemIsJsFmod | components/video-player.tsx:375-376 | On whole numbers the number `%` gives the integer `%`. |
| TimeFormat.FieldOfNat | components/video-player.tsx:378 | A padded field of `k` is a digit string worth `k`, at least two long and exactly two below 100. |
| TimeFormat.ClockFields | components/video-player.tsx:374-376 | On non-negative seconds the three `Math.floor` expressions are the hours, minutes and seconds of the whole seconds. |
| TimeFormat.FormatTime | components/video-player.tsx:373-381 | `formatTime(seconds)`. No contract of its own; its properties are stated by `TimeFormat.FormatTimeIsClock`, `TimeFormat.FormatTimeTruncates`, `TimeFormat.FormatTimeShape` and `TimeFormat.FormatTimeRoundTrip`. |
| TimeFormat.FormatTimeIsClock | components/video-player.tsx:373-381 | `formatTime(x)` is the clock of `floor(x)` whole seconds, with the hours field only from one hour on. |
| TimeFormat.FormatTimeTruncates | components/video-player.tsx:374-376 | The fraction of a second never shows. |
| TimeFormat.FormatTimeShape | components/video-player.tsx:373-381 | The output has two fields below one hour and three from one hour on. Every field is digits; minutes and seconds are two digits below 60. The length is 5 or 8 below 100 hours. |
| TimeFormat.ClockShape | components/video-player.tsx:378-380 | The same shape, for the clock of whole seconds. |
| TimeFormat.ClockRoundTrip | components/video-player.tsx:378-380 | Reading the clock of `n` seconds back gives `n`. |
| TimeFormat.FormatTimeRoundTrip | components/video-player.tsx:373-381 | For non-negative seconds, `formatTime` loses only the fraction: reading its output back gives `floor(x)`. |
| MovieSources.Matches | app/api/movie-sources/route.ts:92-110 | The three `find` callbacks: same TMDB id; lower-cased title contains the query and the year is equal; title and query contain one another. No contract of its own; it is used by `MovieSources.FirstIndex` and the tier lemmas. |
| MovieSources.FirstIndex | app/api/movie-sources/route.ts:92 | `find` picks the first matching index; `None` means no entry matches. |
| MovieSources.Find | app/api/movie-sources/route.ts:92 | `catalog.find(cb)` returns a matching catalog entry, and returns nothing exactly when no entry matches. |
| MovieSources.FindFirst | app/api/movie-sources/route.ts:101-103 | An entry that matches, with no earlier match, is the one `find` returns. |
| MovieSources.FindMovieSource | app/api/movie-sources/route.ts:89-113 | The result is a catalog entry. There is none exactly when no entry carries the (truthy) id and no title contains, or is contained in, the query. |
| MovieSources.IdTierWins | app/api/movie-sources/route.ts:91-94 | A truthy id carried by an entry selects the first such entry, whatever the title and year. |
| MovieSources.YearTierWins | app/api/movie-sources/route.ts:100-105 | Without an id hit, a truthy year selects the first entry whose title contains the query and whose year is equal. |
| MovieSources.OverlapTierWins | app/api/movie-sources/route.ts:108-112 | Otherwise the first entry whose title contains the query or is contained in it wins. |
| MovieSources.ResolvesToItself | app/api/movie-sources/route.ts:89-94 | In a catalog with distinct non-zero ids, each entry's own title, year and id find that entry. |
| MovieSources.CatalogIdsDistinct | app/api/movie-sources/route.ts:5-86 | The catalog has ten entries, pairwise distinct non-zero TMDB ids and non-empty titles. |
| MovieSources.SimilarAll | app/api/movie-sources/route.ts:120-122 | The filter keeps catalog order and keeps exactly the entries sharing a word of more than three characters with the query. |
| MovieSources.PrefixIsSubsequence | app/api/movie-sources/route.ts:123 | `slice(0, n)` of an in-order selection is still an in-order selection. |
| MovieSources.FindSimilarMovies | app/api/movie-sources/route.ts:116-124 | At most five entries, in catalog order, each sharing a long word with the query; with fewer than five, every sharing entry is there. The result is exactly the first `min(5, n)` of the `n` entries the filter keeps. |
| MovieSources.Get | app/api/movie-sources/route.ts:126-155 | HTTP 400 exactly when the title is missing or empty. Otherwise `found` iff a movie, which is `findMovieSource`'s entry with no suggestions; when nothing is found, the suggestions are `findSimilarMovies`. |
| MovieSources.GetFindsEveryEntry | app/api/movie-sources/route.ts:126-145 | GET with an entry's own title, year and id returns that entry. |
| MovieSources.Post | app/api/movie-sources/route.ts:158-179 | An unparsable body gives "Invalid request" and a falsy id "ID parameter is required". Any other id gives `found: true` with no suggestions, and the movie is the entry at `id % 10` for positive ids. For negative ids the movie is the first entry when divisible by 10 and missing otherwise (JavaScript's negative remainder indexes nothing). |
| MovieSources.PostWrapsAround | app/api/movie-sources/route.ts:168-169 | Positive ids `n` and `n + 10` give the same response. |
| VideoPlayer.MovieIndex | components/video-player.tsx:87 | `parseInt(videoId) % 5` is `NaN` exactly when `parseInt` is. Otherwise it lies strictly between -5 and 5, differs from the parsed id by a multiple of 5, and is zero or has the id's sign. |
| VideoPlayer.FallbackMovie | components/video-player.tsx:87-88 | The fallback, when there is one, is one of the five public-domain movies. An id that `parseInt` reads as `NaN` has none. |
| VideoPlayer.FullMovie | components/video-player.tsx:91 | A given streaming source is used as is. Any other result is one of the five public-domain movies. There is no movie exactly when there is neither a source nor a fallback. |
| VideoPlayer.FallbackForNonNegativeId | components/video-player.tsx:86-91 | An id that parses to `n >= 0` picks movie `n % 5`, so a movie is always available. |
| VideoPlayer.FallbackForNegativeId | components/video-player.tsx:87-88 | A negative id not divisible by 5 gives a negative index and no fallback movie. |
| VideoPlayer.FallbackForNegativeMultiple | components/video-player.tsx:87-88 | A negative multiple of 5 gives the index `-0`, which reads the first movie. |
| VideoPlayer.FallbackWrapsAround | components/video-player.tsx:87-88 | Ids `n` and `n + 5` (`n >= 0`) give the same fallback. |
| VideoPlayer.InitialMode | components/video-player.tsx:82 | The player starts in full-movie mode iff a streaming source is given. |
| VideoPlayer.BackendDispatch | components/video-player.tsx:185-357 | Play, mute, volume, seek and skip each drive one backend. On the embed they never touch the element, and without an error each posts exactly one command. On the native element they post nothing. |
| VideoPlayer.Initial | components/video-player.tsx:74-84 | The initial state follows the `useState` defaults, with the first auto-play pending and nothing sent. |
| VideoPlayer.ControlsReset | components/video-player.tsx:359-371 | Shows the controls and re-arms the hide timer; nothing else changes. |
| VideoPlayer.PlayToggled | components/video-player.tsx:185-222 | With an error, nothing changes. Otherwise `isPlaying` flips and controls reset. The embed gets `pauseVideo`/`playVideo`; the element is paused or played. Nothing else changes. |
| VideoPlayer.MuteToggled | components/video-player.tsx:224-253 | With an error, nothing changes. Otherwise `isMuted` flips, the volume stays, and the embed gets `unMute`/`mute` or the element's `muted` follows. |
| VideoPlayer.VolumeChanged | components/video-player.tsx:281-310 | With an error, nothing changes. A value outside [0, 1] on the element aborts the handler. Otherwise `volume := v` and `isMuted := (v == 0)`, and the embed gets `setVolume(v*100)` or the element's volume is set. |
| VideoPlayer.Seeked | components/video-player.tsx:312-339 | With an error, nothing changes. Otherwise the position becomes exactly `t` in state and on the backend (`seekTo` or the element). |
| VideoPlayer.Clamp | components/video-player.tsx:347 | `max(0, min(limit, x))` lies in [0, limit], is `x` inside it, and is a bound outside it. |
| VideoPlayer.Skipped | components/video-player.tsx:341-357 | On the embed: a seek to `currentTime + d` clamped to [0, duration]. On the element: the element's position moves, clamped to its duration, without touching `currentTime`. Before the metadata loads, nothing changes. |
| VideoPlayer.FullscreenToggled | components/video-player.tsx:255-270 | Only resets the controls timer, even with an error. |
| VideoPlayer.FullscreenChanged | components/video-player.tsx:272-279 | `isFullscreen` takes the browser's value; nothing else changes. |
| VideoPlayer.ModeSwitched | components/video-player.tsx:170-183 | The same mode changes nothing. A new mode stops, rewinds, buffers, clears the error and arms the auto-play; the element is fresh iff the backend changes. |
| VideoPlayer.AutoPlayFired | components/video-player.tsx:177-180 | A pending auto-play disarms and runs the play toggle once. |
| VideoPlayer.HideTimerFired | components/video-player.tsx:366-370 | A pending hide timer disarms and hides the controls iff playing. |
| VideoPlayer.MetadataLoaded | components/video-player.tsx:102-105 | On the element: the duration is known and buffering stops. On the embed: no listener, no change. |
| VideoPlayer.TimeUpdated | components/video-player.tsx:107-109 | On the element, `currentTime` follows playback. |
| VideoPlayer.Ended | components/video-player.tsx:111-113 | On the element, playback stops. |
| VideoPlayer.BufferingChanged | components/video-player.tsx:115-121 | On the element, `waiting`/`playing` set buffering on and off. |
| VideoPlayer.LoadFailed | components/video-player.tsx:123-126 | On the element, the load error message is set and buffering stops. |
| VideoPlayer.PlayFailed | components/video-player.tsx:214-217 | A rejected `play()` sets its own error message; nothing else changes. |
| VideoPlayer.KeyControl | components/video-player.tsx:146-163 | Space toggles play, ArrowRight/ArrowLeft skip by +10/-10, `f` fullscreen, `m` mute, and no other key does anything (each an iff). |
| VideoPlayer.KeyPressed | components/video-player.tsx:145-168 | Space is `togglePlay`, ArrowRight/ArrowLeft are `skip(10)`/`skip(-10)`, `f` is `toggleFullscreen`, `m` is `toggleMute`, and any other key changes nothing. |
| VideoPlayer.Apply | components/video-player.tsx:98-371 | Sends each event to its handler. No contract of its own; `VideoPlayer.StepValid` states that it keeps `Valid`, and `VideoPlayer.ErrorPersists` that only a mode switch clears an error. |
| VideoPlayer.Run | components/video-player.tsx:98-371 | Applies events in order. No contract of its own; its properties are stated by `VideoPlayer.RunAppend`, `VideoPlayer.RunValid` and `VideoPlayer.ErrorPersists`. |
| VideoPlayer.RunAppend | components/video-player.tsx:98-371 | Running two event sequences one after the other is running their concatenation. |
| VideoPlayer.InitialValid | components/video-player.tsx:74-84 | The initial state satisfies `Valid`: both volumes lie in [0, 1], and the controls are hidden only when no hide timer is pending. |
| VideoPlayer.StepValid | components/video-player.tsx:98-371 | Every event the interface can produce preserves the invariant. The invariant: both volumes stay in [0, 1], and hidden controls have no pending hide timer. |
| VideoPlayer.RunValid | components/video-player.tsx:98-371 | The invariant holds after any sequence of such events. |
| VideoPlayer.ErrorFreezesTransport | components/video-player.tsx:186 | With an error, play, mute, volume, seek and skip are no-ops for every argument. Fullscreen still resets the controls timer. |
| VideoPlayer.ErrorFreezesKeys | components/video-player.tsx:145-168 | With an error, every key except `f` is a no-op. |
| VideoPlayer.ErrorPersists | components/video-player.tsx:171-183 | Only a mode switch clears an error: any sequence of other events keeps it. |
| VideoPlayer.TogglePlayTwice | components/video-player.tsx:185-222 | Two play toggles restore `isPlaying`; on the embed they post the opposite commands in order. |
| VideoPlayer.ToggleMuteTwice | components/video-player.tsx:224-253 | Two mute toggles restore `isMuted` and the element, and never touch the volume. |
| VideoPlayer.VolumeDecidesMute | components/video-player.tsx:293-308 | After the slider, muted iff the volume is 0. Unmuting with the button then keeps the volume at 0. |
| VideoPlayer.SkipOnEmbed | components/video-player.tsx:344-349 | A skip that stays in [0, duration] moves by exactly `d` and posts `seekTo`. |
| VideoPlayer.SkipStopsAtBounds | components/video-player.tsx:347 | Skipping back at 0 or forward at the end stays at that bound. |
| VideoPlayer.SeekDoesNotClamp | components/video-player.tsx:315-337 | A seek outside [0, duration] is applied as is. |
| VideoPlayer.SwitchThenAutoPlay | components/video-player.tsx:171-183 | A mode switch followed by its timer plays with no error, on the new backend. |
| VideoPlayer.InteractionThenHide | components/video-player.tsx:359-371 | After an interaction and the timer, the controls are hidden iff playing. |
| VideoPlayer.ModeSwitchIdempotent | components/video-player.tsx:171-183 | Selecting the same mode again changes nothing. |
| VideoPlayer.SpaceTwice | components/video-player.tsx:147-150 | Space twice restores `isPlaying`; without an error, one press flips it. |
| VideoPlayer.PlayThenHide | components/video-player.tsx:359-371 | Starting playback, then the hide timer, hides the controls. |
| VideoPlayer.TogglePlayIn | components/video-player.tsx:185-222 | `togglePlay` of an earlier render: no-op if that render had an error or another backend. Otherwise `isPlaying` becomes the negation of that render's value. |
| VideoPlayer.ToggleMuteIn | components/video-player.tsx:224-253 | The same for `toggleMute`. |
| VideoPlayer.SkipIn | components/video-player.tsx:341-357 | `skip` of an earlier render; on the embed the target comes from that render's time and duration. |
| VideoPlayer.CurrentRenderHandlers | components/video-player.tsx:145-168 | Handlers of the current render are exactly the model's handlers. |
| VideoPlayer.KeyPressedAsWritten | components/video-player.tsx:145-168 | As written, keys other than `f` act through the mount render: after an error there, or on the other backend, they do nothing. Otherwise Space sets `isPlaying` and `m` sets `isMuted` to the opposite of the mount render's value, and on the embed the arrows seek from the mount render's position. `f` is `toggleFullscreen`, and unbound keys do nothing. |
| VideoPlayer.SpaceTwiceAsWritten | components/video-player.tsx:145-168 | As written, Space twice after mount leaves the player playing. |
| VideoPlayer.SpaceAfterErrorAsWritten | components/video-player.tsx:145-168 | As written, Space after a load error still plays the element. |
| VideoPlayer.AutoPlayFiredAsWritten | components/video-player.tsx:171-183 | As written, the auto-play uses the pre-switch render: with its error it does nothing, else `isPlaying` becomes the negation of the old value. |
| VideoPlayer.SwitchWhilePlayingAsWritten | components/video-player.tsx:171-183 | As written, switching while playing or with an error leaves the player paused after the auto-play. |
| VideoPlayer.HideTimerFiredAsWritten | components/video-player.tsx:366-370 | As written, the hide timer tests the `isPlaying` of the render that armed it. |
| VideoPlayer.PlayThenHideAsWritten | components/video-player.tsx:359-371 | As written, after pressing play the controls stay visible. |
| VideoPlayer.MediaElement.constructor | components/video-player.tsx:423-428 | A new element is at 0, unknown duration, full volume, unmuted, paused. |
| VideoPlayer.MediaElement.Remount | components/video-player.tsx:413-429 | Remounting gives a fresh element. |
| VideoPlayer.MediaElement.Play | components/video-player.tsx:214 | Only `paused` changes, to false. |
| VideoPlayer.MediaElement.Pause | components/video-player.tsx:212 | Only `paused` changes, to true. |
| VideoPlayer.MediaElement.Seek | components/video-player.tsx:336 | Only the position changes. |
| VideoPlayer.MediaElement.SetVolume | components/video-player.tsx:306 | Only the volume changes; it must lie in [0, 1]. |
| VideoPlayer.MediaElement.SetMuted | components/video-player.tsx:250 | Only `muted` changes. |
| VideoPlayer.Player.constructor | components/video-player.tsx:70-84 | Mounting gives the `Initial` state, with a new element of its own. |
| VideoPlayer.Player.ResetControlsTimeout | components/video-player.tsx:359-371 | Ends in `ControlsReset` of the old state. |
| VideoPlayer.Player.TogglePlay | components/video-player.tsx:185-222 | Ends in `PlayToggled` of the old state. |
| VideoPlayer.Player.ToggleMute | components/video-player.tsx:224-253 | Ends in `MuteToggled` of the old state. |
| VideoPlayer.Player.ToggleFullscreen | components/video-player.tsx:255-270 | Ends in `FullscreenToggled` of the old state. |
| VideoPlayer.Player.HandleVolumeChange | components/video-player.tsx:281-310 | Ends in `VolumeChanged` of the old state. |
| VideoPlayer.Player.HandleSeek | components/video-player.tsx:312-339 | Ends in `Seeked` of the old state. |
| VideoPlayer.Player.Skip | components/video-player.tsx:341-357 | Ends in `Skipped` of the old state. |
| VideoPlayer.Player.OnFullscreenChange | components/video-player.tsx:272-279 | Ends in `FullscreenChanged` of the old state. |
| VideoPlayer.Player.SetPlaybackMode | components/video-player.tsx:387-391 | Ends in `ModeSwitched` of the old state. |
| VideoPlayer.Player.RemountVideo | components/video-player.tsx:413-429 | Only the element changes, to a fresh one. |
| VideoPlayer.Player.ResetForMode | components/video-player.tsx:171-183 | Mode set; stopped, rewound, buffering, no error, auto-play armed; nothing else changes. |
| VideoPlayer.Player.OnAutoPlayTimer | components/video-player.tsx:178-180 | Ends in `AutoPlayFired` of the old state. |
| VideoPlayer.Player.OnHideTimer | components/video-player.tsx:366-370 | Ends in `HideTimerFired` of the old state. |
| VideoPlayer.Player.OnLoadedMetadata | components/video-player.tsx:102-105 | Ends in `MetadataLoaded` of the old state. |
| VideoPlayer.Player.OnTimeUpdate | components/video-player.tsx:107-109 | Ends in `TimeUpdated` of the old state. |
| VideoPlayer.Player.OnEnded | components/video-player.tsx:111-113 | Ends in `Ended` of the old state. |
| VideoPlayer.Player.OnWaiting | components/video-player.tsx:115-117 | Ends in `BufferingChanged(_, true)` of the old state. |
| VideoPlayer.Player.OnPlaying | components/video-player.tsx:119-121 | Ends in `BufferingChanged(_, false)` of the old state. |
| VideoPlayer.Player.OnError | components/video-player.tsx:123-126 | Ends in `LoadFailed` of the old state. |
| VideoPlayer.Player.OnPlayRejected | components/video-player.tsx:214-217 | Ends in `PlayFailed` of the old state. |
| VideoPlayer.Player.OnKeyDown | components/video-player.tsx:145-168 | Ends in `KeyPressed` of the old state. |

## Left out

- Browser and network effects are parameters or are absent:
  - the HTTP request and response objects, and `NextResponse.json`;
  - parsing of the URL query (GET takes the already parsed parameters);
  - `request.json()` (POST takes an `Unparsable` body or the `id`).
- `MovieSources.Post` models the `id` as an integer. A string or fractional `id` (coerced by `%`) is not modelled.
- `MovieSources.Get` takes `year` and `tmdbId` already parsed. `None` stands for both a missing parameter and `NaN`; both are falsy.
- `MovieSources.YearTierWins`: the year tier (route.ts:101-103) tests only `movie.title.toLowerCase().includes(titleLower)`. Unlike the overlap tier (route.ts:108-110), it never tests the query containing the title, and the model keeps that one-way test.
- `VideoPlayer.Seeked`: `handleSeek` (video-player.tsx:312-339) assigns the slider value without clamping, unlike `skip` (video-player.tsx:347). The model keeps the unclamped assignment.
- `JsBuiltins.Lower` lower-cases ASCII letters only; other Unicode case mappings are not modelled.
- `MovieSources.SharesLongWord` measures a word's length in Unicode characters, while `word.length` (route.ts:122) counts UTF-16 code units. A word of characters outside the Basic Multilingual Plane can be long in JavaScript and short in the model. The real catalog and its titles are ASCII, so `GET` is unaffected, but `FindSimilarMovies` and `SimilarAll` over other catalogs and queries assume the two lengths agree.
- `JsBuiltins.ParseInt` reads decimal digits only. The `0x` prefix that `parseInt` also accepts is not modelled, and values are unbounded integers rather than doubles.
- `TimeFormat.FormatTimeRoundTrip` covers non-negative finite seconds only. `NaN`, `Infinity` and negative durations are not modelled.
- The `postMessage` payloads are `EmbedCommand` values. The JSON strings themselves, the YouTube embed URL and the `try`/`catch` around `postMessage` are not modelled.
- `requestFullscreen` and `exitFullscreen` are not modelled. `FullscreenChanged` takes the browser's answer as an event.
- `VideoPlayer.Player` has no `Valid()` predicate of its own. Each method ends in `F(old(Snapshot()))`, so the invariant `Valid` proved by `VideoPlayer.StepValid` and `VideoPlayer.RunValid` holds for `Snapshot()` after any sequence of method calls; it is not restated on the fields.
- `VideoPlayer.Player.SetPlaybackMode` resets the existing `MediaElement` object in place when the backend changes. React mounts a new `<video>` element instead, so the model does not capture the element's identity.
- The `<video>` element itself is modelled only through its position, duration, volume, `muted` and `paused`:
  - a ref is taken to be mounted whenever its backend is active;
  - the browser's own clamping of a seek position is not modelled;
  - playback progress arrives only through `timeupdate`.
- The render output is not modelled: markup, CSS, the slider bounds, and the title and license banner.
  - The volume slider's range [0, 1] appears only as the `Possible` assumption of `VideoPlayer.StepValid`.
  - A `fullMovie` that is `undefined` (no streaming source and a `NaN` or negative fallback index) makes the render read `undefined.url`. The model states when `FallbackMovie` is `None`: for a `NaN` id and for a negative id that is not a multiple of 5.
- Timers are pending flags fired by events; real delays and clearing order are not modelled.
- The main model (`Apply`, `Run`, `KeyPressed`, `AutoPlayFired`, `HideTimerFired` and the `Player` methods) does not follow the React closures over earlier renders: it reads the current state everywhere. At the three places listed under Findings it therefore models the intended behaviour. The as-written behaviour is stated only by the `…In` and `…AsWritten` members beside it.
- The other files of the repository (pages, search, web3 wallet, `MovieService`, content routes) are not part of this model.

## Findings

| source | as written | input that shows it | evidently intended | confidence | as-written member | corrected member |
|---|---|---|---|---|---|---|
| components/video-player.tsx:145-168 | The `keydown` listener is registered once (empty dependency list), so Space, the arrows and `m` run the first render's handlers: they always see a paused, unmuted, error-free player at position 0. `f` likewise runs the first render's `toggleFullscreen`, whose `isFullscreen` is false, so by line 259 the key always requests fullscreen and never exits it (the fullscreen request itself is not modelled). | Mount, then press Space twice: the player keeps playing. After a load error, Space still plays the element. | Keys act on the current state: Space toggles back to paused and is inert while an error shows. | high (not executed) | VideoPlayer.SpaceTwiceAsWritten | VideoPlayer.SpaceTwice |
| components/video-player.tsx:171-183 | The mode-reset effect's timer calls the `togglePlay` of the render that switched the mode. That render still has the old `isPlaying` and `error`. | Switch tabs while playing, or while an error shows: after the auto-play the player is paused. | The auto-play starts playback after every mode switch. | high (not executed) | VideoPlayer.SwitchWhilePlayingAsWritten | VideoPlayer.SwitchThenAutoPlay |
| components/video-player.tsx:359-371 | The hide timer tests the `isPlaying` of the render that armed it, which is the value before the toggle. | Press play on a paused player and wait three seconds: the controls stay visible while it plays. | Controls hide three seconds after the last interaction while playing. | medium (not executed) | VideoPlayer.PlayThenHideAsWritten | VideoPlayer.PlayThenHide |

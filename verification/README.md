# Audio player and voice store of the speech app

The speech app is a mobile front-end for a remote speech API. This project
models its two pieces of client-side logic.

- **The audio player component** (`AudioPlayer`, `TimeFormat`). It holds the
  record `{sound?, isPlaying, position, duration}` and the current `audioUri`
  prop. It folds playback status reports into that record. When the URI
  changes, it releases the old native sound handle and loads a new one. It
  toggles play and pause, shows positions as `m:ss` text, and draws a
  progress bar. The native sound API is not called. Each call it would
  make is recorded as an event in a trace, and the outcome of each call is
  a parameter: whether it resolved, and the serial of a newly created handle.
  Over that trace the model proves an ownership invariant. The handles that
  are live (created and not successfully unloaded) are exactly the handle
  the state holds, so there is at most one. No handle is created while
  another is live. Play and pause only address a live handle. The invariant
  holds after mounting and after every sequence of prop changes, status
  reports, button presses and native outcomes (`AudioPlayer.RunValid`).
- **The voice selection store** (`VoiceStore`). It holds the fetched voice
  list and the selected voice id. The id starts at a fixed default. From
  these it derives the selected voice (the first listed voice with that id)
  and the list shown to the user (empty when nothing was fetched).

Behaviour taken from the code:

- `!audioUri` is JavaScript truthiness, so the empty string counts as no URI,
  just like null (`AudioPlayer.Present`).
- In the URI effect, the unload of the old handle sits outside the `try` block
  (speechApp/components/AudioPlayer.tsx:33-36). If that unload rejects, the
  effect stops. The handle is still held, no new handle is created, and no
  error is reported.
- `loadAudio`, reached through the play button when no handle is held, does not
  reset `isPlaying`, `position` or `duration`. The URI effect does reset them.
- The effect runs only when the prop actually changes (`AudioPlayer.Rerender`).
  A falsy new URI leaves the old handle loaded.

## Model

| member | source | states |
|---|---|---|
| TimeFormat.PadStart | speechApp/components/AudioPlayer.tsx:151 | `padStart(2, "0")`: the result has length max(2, input length), ends with the input, and is filled with the pad character before it |
| TimeFormat.FormatTime | speechApp/components/AudioPlayer.tsx:147-152 | the text is a numeral, a colon, and two digits; the two digits read back as the seconds left over after whole minutes |
| TimeFormat.FormatTimeFields | speechApp/components/AudioPlayer.tsx:148-151 | the minutes field reads back as floor(floor(millis/1000)/60) and the seconds field lies in 0..59 |
| TimeFormat.FormatTimeParses | speechApp/components/AudioPlayer.tsx:148-150 | round trip: parsing the text gives floor(millis/1000), i.e. mins*60 + secs |
| TimeFormat.ClockFormats | speechApp/components/AudioPlayer.tsx:147-152 | converse round trip: every `m:ss` text (canonical minutes, seconds below 60) is the formatting of the seconds it names |
| TimeFormat.FormatTimeInjective | speechApp/components/AudioPlayer.tsx:148 | two millisecond counts format alike exactly when they agree in whole seconds |
| TimeFormat.SubSecondIgnored | speechApp/components/AudioPlayer.tsx:148 | formatTime(m) equals formatTime(1000*floor(m/1000)) |
| TimeFormat.NatToString | speechApp/components/AudioPlayer.tsx:151 | `toString` of a non-negative integer is a canonical numeral with no leading zero |
| TimeFormat.NatToStringParses | speechApp/components/AudioPlayer.tsx:151 | the decimal text of n reads back as n |
| AudioPlayer.OnPlaybackStatusUpdate | speechApp/components/AudioPlayer.tsx:113-124 | an unloaded status changes nothing; a loaded one sets duration and position (missing ones as 0) and copies isPlaying; a finished one ends paused at position 0; the handle is never touched |
| AudioPlayer.LoadedStatusAbsorbs | speechApp/components/AudioPlayer.tsx:115-117 | a loaded report overwrites everything an earlier report set |
| AudioPlayer.StatusIdempotent | speechApp/components/AudioPlayer.tsx:113-124 | delivering the same report twice equals delivering it once |
| AudioPlayer.LastStatusWins | speechApp/components/AudioPlayer.tsx:113-124 | a run of reports has the effect of its last loaded report alone, or none if no report is loaded |
| AudioPlayer.LoadNewAudio | speechApp/components/AudioPlayer.tsx:28-55 | falsy URI: nothing changes; otherwise the held handle is unloaded exactly once, first; a rejected unload stops the effect; otherwise the new trace is exactly that unload followed by the creation (and, on failure, the load error), and the state is reset to paused at 0 of 0 with the new handle, or holds no handle after a failed load |
| AudioPlayer.HandlePlayPause | speechApp/components/AudioPlayer.tsx:126-145 | with a handle: the trace gains exactly one call (pause when playing, play otherwise) followed by "Failed to play audio" exactly when it rejects, state unchanged; without one: load through `loadAudio` (lines 95-111) and the trace gains exactly the creation, one play of the new handle and its outcome, or the creation failure and "Failed to load audio" |
| AudioPlayer.Rerender | speechApp/components/AudioPlayer.tsx:55 | an unchanged `audioUri` prop changes nothing; a changed one runs the effect with the new prop |
| AudioPlayer.Mount | speechApp/components/AudioPlayer.tsx:19-55 | mounting starts from the initial state and runs the effect once: a present URI that loads gives a paused fresh handle and a trace of exactly its creation; a failed load gives the initial state and a trace of the failed creation and the load error; a falsy URI leaves the initial state and an empty trace |
| AudioPlayer.LoadNewAudioValid | speechApp/components/AudioPlayer.tsx:30-47 | the URI effect preserves the ownership invariant: the old handle is released before a new one is acquired |
| AudioPlayer.HandlePlayPauseValid | speechApp/components/AudioPlayer.tsx:126-140 | play/pause preserves the ownership invariant: it creates a handle only when none is held and addresses only the held handle |
| AudioPlayer.MountValid | speechApp/components/AudioPlayer.tsx:19-55 | the ownership invariant holds once the component has mounted |
| AudioPlayer.RunValid | speechApp/components/AudioPlayer.tsx:28-145 | after any sequence of prop changes, reports and presses, at most one handle is live, it is the held one, and the whole trace kept the discipline: no handle created while another is live, none unloaded twice, play and pause only on a live handle |
| AudioPlayer.Unmount | speechApp/components/AudioPlayer.tsx:28-55 | as written, the effect returns no cleanup, so unmounting makes no native call |
| AudioPlayer.UnmountLeaks | speechApp/components/AudioPlayer.tsx:28-55 | as written, a handle held at unmount stays live |
| AudioPlayer.UnmountLeaksExample | speechApp/components/AudioPlayer.tsx:28-55 | mounting with a URI that loads and then unmounting leaves that handle live |
| AudioPlayer.UnmountReleasing | speechApp/components/AudioPlayer.tsx:32-36 | corrected unmount: the held handle is unloaded, the one native call made, and no handle is held once the unload resolves |
| AudioPlayer.UnmountReleasingValid | speechApp/components/AudioPlayer.tsx:32-36 | the corrected unmount preserves the ownership invariant and leaves no handle live once the unload resolves |
| AudioPlayer.RunThenUnmountReleases | speechApp/components/AudioPlayer.tsx:28-145 | after mounting, any run of actions and the corrected unmount, no handle is live |
| AudioPlayer.ProgressPercent | speechApp/components/AudioPlayer.tsx:199 | the width is 0 when the duration is not positive, otherwise the percentage p with p*duration = position*100 |
| AudioPlayer.ProgressBounded | speechApp/components/AudioPlayer.tsx:199 | within the track the width is between 0 and 100, and 100 exactly at the end |
| VoiceStore.Init | speechApp/contexts/VoiceContext.tsx:7-9 | the initial selected id is "EXAVITQu4vr4xnSDxMaL" |
| VoiceStore.IndexOf | speechApp/contexts/VoiceContext.tsx:22-24 | the index found has a matching id and no earlier index matches; none is found exactly when no element matches |
| VoiceStore.Voices | speechApp/contexts/VoiceContext.tsx:27 | `voices` is the fetched list, or the empty list when nothing was fetched |
| VoiceStore.SelectedVoice | speechApp/contexts/VoiceContext.tsx:22-24 | a selected voice belongs to the fetched list and carries the selected id; there is none exactly when nothing was fetched or no voice matches |
| VoiceStore.SetSelectedVoiceId | speechApp/contexts/VoiceContext.tsx:7 | the setter replaces the selected id and leaves the voice list unchanged |
| VoiceStore.NoDataNoSelection | speechApp/contexts/VoiceContext.tsx:22-27 | with nothing fetched, `voices` is empty and `selectedVoice` is undefined |
| VoiceStore.SelectedIsListed | speechApp/contexts/VoiceContext.tsx:22-27 | the selected voice appears in the `voices` list and carries the selected id |
| VoiceStore.SelectedIsFirstMatch | speechApp/contexts/VoiceContext.tsx:22-24 | the selected voice is the first one in list order with the selected id |
| VoiceStore.SelectedIsTheMatch | speechApp/contexts/VoiceContext.tsx:22-24 | with unique ids, the selected voice is the one listed voice with the selected id |
| VoiceStore.LastWriterWins | speechApp/contexts/VoiceContext.tsx:7 | a second selection replaces the first entirely |
| VoiceStore.PickSelects | speechApp/components/VoiceSelector.tsx:66-69 | picking a listed voice makes a voice with its id the selected voice, and with unique ids the picked voice itself |

## Findings

| source | as written | input that shows it | evidently intended | confidence | as-written member | corrected member |
|---|---|---|---|---|---|---|
| speechApp/components/AudioPlayer.tsx:28-55 | the `audioUri` effect returns no cleanup function, so the handle held when the component unmounts is never unloaded | mount with audioUri "a" whose creation succeeds, then unmount: the handle stays live | release the held handle on unmount, as the effect already does before loading a new one (lines 32-36) | medium, not executed | AudioPlayer.UnmountLeaksExample | AudioPlayer.RunThenUnmountReleases |

## Left out

- The voices fetch (`useQuery`, `fetch`, the non-ok error, the loading and error flags): network and library behaviour. The fetched list is the input `Option<seq<Voice>>`.
- The native sound API (`createAsync`, `unloadAsync`, `playAsync`, `pauseAsync`): foreign calls. Each is an event in a trace, and its outcome is a parameter.
- Asynchronous interleaving of the effects, the status callback and the press handler. Each transition runs to completion. Status reports from a handle that was already unloaded are not modelled.
- A play/pause press is allowed with a falsy URI. The component renders nothing then (lines 154-156), so no button exists. This over-approximates the reachable presses, and the invariant holds for all of them.
- The ownership invariant of the component's own actions does not cover unmounting, because the source has no cleanup. The Findings section models both the leak as written and the corrected cleanup.
- The wave animation, the styles and the rendered markup: presentation only.
- AudioPlayer.ProgressPercent: the width is a real number, not an IEEE double, and the text of the `%` string is not modelled.
- TimeFormat.FormatTime: millisecond counts are naturals. Negative or fractional inputs, and JavaScript number semantics, are not modelled.
- The HTTP server wrapper (speechApi.py) and the three screens: request plumbing and UI around the two modelled pieces.

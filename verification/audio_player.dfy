/** The playback controller of the audio player component: a record
    `{sound?, isPlaying, position, duration}`, the current `audioUri` prop, and
    the trace of calls the component has made on the native sound API.
    The native calls (`createAsync`, `unloadAsync`, `playAsync`, `pauseAsync`)
    are not executed: their outcomes are parameters, and each call appears as
    an event in the trace. */
module AudioPlayer {
  import opened Wrappers

  /** A native sound handle: the URI it was created from and a serial that
      tells successive handles apart. */
  datatype Sound = Sound(uri: string, serial: nat)

  datatype PlayerState = PlayerState(sound: Option<Sound>, isPlaying: bool, position: nat, duration: nat)

  /** The `useState` initial values. */
  const Initial: PlayerState := PlayerState(None, false, 0, 0)

  /** A playback status report. Only a loaded status carries fields; a
      missing duration or position is None. */
  datatype Status =
    | NotLoaded
    | Loaded(durationMillis: Option<nat>, positionMillis: Option<nat>, isPlaying: bool, didJustFinish: bool)

  /** One call on the native sound API, or one error surfaced through `onError`.
      `made` is the handle a creation produced (None: the creation rejected);
      `ok` says whether an unload resolved. */
  datatype Event =
    | Create(uri: string, made: Option<Sound>)
    | Unload(sound: Sound, ok: bool)
    | Play(sound: Sound)
    | Pause(sound: Sound)
    | OnError(message: string)

  const LoadFailed: string := "Failed to load audio"
  const PlayFailed: string := "Failed to play audio"

  datatype Player = Player(audioUri: Option<string>, state: PlayerState, trace: seq<Event>)

  /** JavaScript truthiness of the `audioUri` prop: both null and "" are falsy. */
  predicate Present(audioUri: Option<string>) {
    audioUri.Some? && audioUri.value != ""
  }

  function Held(st: PlayerState): set<Sound> {
    match st.sound
    case Some(s) => {s}
    case None => {}
  }

  // ---------------------------------------------------------------------------
  // Status reports

  /** `onPlaybackStatusUpdate`: fold one status report into the state. */
  function OnPlaybackStatusUpdate(st: PlayerState, status: Status): (r: PlayerState)
    ensures r.sound == st.sound
    ensures status.NotLoaded? ==> r == st
    ensures status.Loaded? ==> r.duration == status.durationMillis.GetOr(0)
    ensures status.Loaded? && !status.didJustFinish ==>
      r.position == status.positionMillis.GetOr(0) && r.isPlaying == status.isPlaying
    ensures status.Loaded? && status.didJustFinish ==> r.position == 0 && !r.isPlaying
  {
    match status
    case NotLoaded => st
    case Loaded(d, p, playing, finished) =>
      var reported := st.(duration := d.GetOr(0), position := p.GetOr(0), isPlaying := playing);
      if finished then reported.(isPlaying := false, position := 0) else reported
  }

  /** A loaded report overwrites everything an earlier report set. */
  lemma LoadedStatusAbsorbs(st: PlayerState, a: Status, b: Status)
    requires b.Loaded?
    ensures OnPlaybackStatusUpdate(OnPlaybackStatusUpdate(st, a), b) == OnPlaybackStatusUpdate(st, b)
  {
  }

  /** Delivering the same report twice is the same as delivering it once. */
  lemma StatusIdempotent(st: PlayerState, a: Status)
    ensures OnPlaybackStatusUpdate(OnPlaybackStatusUpdate(st, a), a) == OnPlaybackStatusUpdate(st, a)
  {
  }

  /** A run of status reports, delivered in order. */
  function ApplyStatuses(st: PlayerState, ss: seq<Status>): (r: PlayerState)
    ensures r.sound == st.sound
    decreases |ss|
  {
    if ss == [] then st else ApplyStatuses(OnPlaybackStatusUpdate(st, ss[0]), ss[1..])
  }

  /** The last loaded report of a run, if any. */
  function LastLoaded(ss: seq<Status>): (r: Option<Status>)
    ensures r.Some? ==> r.value.Loaded? && r.value in ss
    ensures r.None? ==> forall i :: 0 <= i < |ss| ==> ss[i].NotLoaded?
    ensures r.Some? ==> exists i :: 0 <= i < |ss| && ss[i] == r.value && NoneLoadedAfter(ss, i)
    decreases |ss|
  {
    if ss == [] then None
    else
      var later := LastLoaded(ss[1..]);
      if later.Some? then
        ghost var i :| 0 <= i < |ss[1..]| && ss[1..][i] == later.value && NoneLoadedAfter(ss[1..], i);
        assert ss[i + 1] == later.value && NoneLoadedAfter(ss, i + 1);
        later
      else if ss[0].Loaded? then
        assert NoneLoadedAfter(ss, 0);
        Some(ss[0])
      else None
  }

  /** No loaded report follows position i. */
  predicate NoneLoadedAfter(ss: seq<Status>, i: nat) {
    forall j :: i < j < |ss| ==> ss[j].NotLoaded?
  }

  /** Only the last loaded report of a run matters; a run of unloaded
      reports changes nothing. */
  lemma {:induction false} LastStatusWins(st: PlayerState, ss: seq<Status>)
    ensures ApplyStatuses(st, ss) ==
      match LastLoaded(ss)
      case None => st
      case Some(s) => OnPlaybackStatusUpdate(st, s)
    decreases |ss|
  {
    if ss != [] {
      var st1 := OnPlaybackStatusUpdate(st, ss[0]);
      LastStatusWins(st1, ss[1..]);
      match LastLoaded(ss[1..])
      case Some(s) => LoadedStatusAbsorbs(st, ss[0], s);
      case None =>
    }
  }

  // ---------------------------------------------------------------------------
  // Ownership of native handles along a trace

  /** The handles that are live after one event: a successful creation
      acquires a handle, a resolved unload releases it. */
  function Track(live: set<Sound>, e: Event): set<Sound> {
    match e
    case Create(_, Some(s)) => live + {s}
    case Unload(s, true) => live - {s}
    case _ => live
  }

  function LiveAfter(live: set<Sound>, t: seq<Event>): set<Sound>
    decreases |t|
  {
    if t == [] then live else LiveAfter(Track(live, t[0]), t[1..])
  }

  /** The discipline each event keeps: play, pause and unload address a live
      handle (so no handle is released twice), and a new handle is acquired
      only when none is live (the old one was released first). */
  predicate Respects(live: set<Sound>, e: Event) {
    match e
    case Play(s) => s in live
    case Pause(s) => s in live
    case Create(_, Some(_)) => live == {}
    case Unload(s, _) => s in live
    case _ => true
  }

  predicate Disciplined(live: set<Sound>, t: seq<Event>)
    decreases |t|
  {
    t == [] || (Respects(live, t[0]) && Disciplined(Track(live, t[0]), t[1..]))
  }

  lemma {:induction false} LiveAfterAppend(live: set<Sound>, t: seq<Event>, u: seq<Event>)
    ensures LiveAfter(live, t + u) == LiveAfter(LiveAfter(live, t), u)
    decreases |t|
  {
    if t == [] {
      assert t + u == u;
    } else {
      assert (t + u)[0] == t[0] && (t + u)[1..] == t[1..] + u;
      LiveAfterAppend(Track(live, t[0]), t[1..], u);
    }
  }

  lemma {:induction false} DisciplinedAppend(live: set<Sound>, t: seq<Event>, u: seq<Event>)
    ensures Disciplined(live, t + u) <==> Disciplined(live, t) && Disciplined(LiveAfter(live, t), u)
    decreases |t|
  {
    if t == [] {
      assert t + u == u;
    } else {
      assert (t + u)[0] == t[0] && (t + u)[1..] == t[1..] + u;
      DisciplinedAppend(Track(live, t[0]), t[1..], u);
    }
  }

  /** The controller's ownership invariant: the handles live according to
      the trace are exactly the one the state holds (so at most one), and
      the trace kept the discipline throughout. */
  predicate Valid(p: Player) {
    LiveAfter({}, p.trace) == Held(p.state) && Disciplined({}, p.trace)
  }

  /** One more event: the live set moves by Track, and the discipline is
      kept exactly when the event respects the live set before it. */
  lemma Snoc(t: seq<Event>, e: Event)
    ensures LiveAfter({}, t + [e]) == Track(LiveAfter({}, t), e)
    ensures Disciplined({}, t + [e]) <==> Disciplined({}, t) && Respects(LiveAfter({}, t), e)
  {
    LiveAfterAppend({}, t, [e]);
    DisciplinedAppend({}, t, [e]);
    assert [e][1..] == [];
  }

  // ---------------------------------------------------------------------------
  // Native calls

  /** `Audio.Sound.createAsync` on `uri`: `created` is the serial of the new
      handle, or None when the call rejects (the caller catches it and
      reports "Failed to load audio"). */
  function CreateEvents(uri: string, created: Option<nat>): seq<Event> {
    match created
    case Some(n) => [Create(uri, Some(Sound(uri, n)))]
    case None => [Create(uri, None), OnError(LoadFailed)]
  }

  /** The outcome of `playAsync` / `pauseAsync`: a rejection is caught and
      reported as "Failed to play audio". */
  function CallOutcome(callOk: bool): seq<Event> {
    if callOk then [] else [OnError(PlayFailed)]
  }

  // ---------------------------------------------------------------------------
  // The three transitions

  /** A status report reaches the player; no native call is made. */
  function StatusUpdate(p: Player, status: Status): (r: Player)
    ensures r.trace == p.trace && r.audioUri == p.audioUri
    ensures r.state == OnPlaybackStatusUpdate(p.state, status)
  {
    p.(state := OnPlaybackStatusUpdate(p.state, status))
  }

  /** The `audioUri` effect (`loadNewAudio`). With a falsy URI nothing
      happens. Otherwise the held handle, if any, is unloaded first; that
      unload is outside the effect's try block, so when it rejects the effect
      stops there with the handle still held and no error reported. Then a new
      handle is created; on success the state is reset to a paused start,
      on failure the error is reported and no handle is held. */
  function LoadNewAudio(p: Player, unloadOk: bool, created: Option<nat>): (r: Player)
    ensures r.audioUri == p.audioUri
    ensures |r.trace| >= |p.trace| && r.trace[..|p.trace|] == p.trace
    ensures !Present(p.audioUri) ==> r == p
    ensures Present(p.audioUri) && p.state.sound.Some? ==>
      && |r.trace| > |p.trace|
      && r.trace[|p.trace|] == Unload(p.state.sound.value, unloadOk)
      && forall i :: |p.trace| < i < |r.trace| ==> !r.trace[i].Unload?
    ensures Present(p.audioUri) && p.state.sound.Some? && !unloadOk ==>
      r.state == p.state && |r.trace| == |p.trace| + 1
    ensures Present(p.audioUri) && (p.state.sound.None? || unloadOk) ==>
      |r.trace| >= |p.trace| + |CreateEvents(p.audioUri.value, created)| &&
      r.trace[|r.trace| - |CreateEvents(p.audioUri.value, created)|..] == CreateEvents(p.audioUri.value, created)
    ensures Present(p.audioUri) && (p.state.sound.None? || unloadOk) && created.Some? ==>
      r.state == PlayerState(Some(Sound(p.audioUri.value, created.value)), false, 0, 0)
    ensures Present(p.audioUri) && (p.state.sound.None? || unloadOk) && created.None? ==>
      r.state == p.state.(sound := None)
    ensures Present(p.audioUri) && (p.state.sound.None? || unloadOk) ==>
      r.trace == p.trace + (if p.state.sound.Some? then [Unload(p.state.sound.value, true)] else [])
                 + CreateEvents(p.audioUri.value, created)
  {
    if !Present(p.audioUri) then p
    else
      var uri := p.audioUri.value;
      var released := match p.state.sound
        case Some(s) => [Unload(s, unloadOk)]
        case None => [];
      if p.state.sound.Some? && !unloadOk then
        p.(trace := p.trace + released)
      else
        var st := match created
          case Some(n) => PlayerState(Some(Sound(uri, n)), false, 0, 0)
          case None => p.state.(sound := None);
        p.(state := st, trace := p.trace + released + CreateEvents(uri, created))
  }

  /** `handlePlayPause`. With no handle held it runs `loadAudio` (which does
      nothing for a falsy URI, and otherwise creates a handle without
      resetting the playback fields) and plays the new handle. With a handle
      held it pauses when playing and plays otherwise. The state's playback
      fields are left to later status reports. */
  function HandlePlayPause(p: Player, created: Option<nat>, callOk: bool): (r: Player)
    ensures r.audioUri == p.audioUri
    ensures |r.trace| >= |p.trace| && r.trace[..|p.trace|] == p.trace
    ensures p.state.sound.Some? ==>
      && r.state == p.state
      && |r.trace| > |p.trace|
      && r.trace[|p.trace|] == (if p.state.isPlaying then Pause(p.state.sound.value) else Play(p.state.sound.value))
      && (|r.trace| == |p.trace| + 1 <==> callOk)
      && r.trace == p.trace + [r.trace[|p.trace|]] + CallOutcome(callOk)
    ensures p.state.sound.None? && !Present(p.audioUri) ==> r == p
    ensures p.state.sound.None? && Present(p.audioUri) && created.None? ==>
      r.state == p.state && r.trace == p.trace + CreateEvents(p.audioUri.value, None)
    ensures p.state.sound.None? && Present(p.audioUri) && created.Some? ==>
      var s := Sound(p.audioUri.value, created.value);
      && r.state == p.state.(sound := Some(s))
      && |r.trace| >= |p.trace| + 2
      && r.trace[|p.trace|..|p.trace| + 2] == [Create(s.uri, Some(s)), Play(s)]
      && r.trace == p.trace + [Create(s.uri, Some(s)), Play(s)] + CallOutcome(callOk)
  {
    match p.state.sound
    case None =>
      if !Present(p.audioUri) then p
      else
        var uri := p.audioUri.value;
        (match created
         case None => p.(trace := p.trace + CreateEvents(uri, None))
         case Some(n) =>
           var s := Sound(uri, n);
           p.(state := p.state.(sound := Some(s)),
              trace := p.trace + CreateEvents(uri, created) + [Play(s)] + CallOutcome(callOk)))
    case Some(s) =>
      var call := if p.state.isPlaying then Pause(s) else Play(s);
      p.(trace := p.trace + [call] + CallOutcome(callOk))
  }

  // ---------------------------------------------------------------------------
  // Runs of the component

  /** A re-render with a new `audioUri` prop: the effect runs only when the
      prop changed (the effect's dependency list). */
  function Rerender(p: Player, audioUri: Option<string>, unloadOk: bool, created: Option<nat>): (r: Player)
    ensures audioUri == p.audioUri ==> r == p
    ensures audioUri != p.audioUri ==> r == LoadNewAudio(p.(audioUri := audioUri), unloadOk, created)
    ensures r.audioUri == audioUri
  {
    if audioUri == p.audioUri then p
    else LoadNewAudio(p.(audioUri := audioUri), unloadOk, created)
  }

  /** Mounting the component: initial state, empty trace, and the effect's
      first run. */
  function Mount(audioUri: Option<string>, created: Option<nat>): (r: Player)
    ensures r.audioUri == audioUri
    ensures Present(audioUri) && created.Some? ==>
      r.state == PlayerState(Some(Sound(audioUri.value, created.value)), false, 0, 0)
    ensures Present(audioUri) && created.Some? ==>
      r.trace == [Create(audioUri.value, Some(Sound(audioUri.value, created.value)))]
    ensures Present(audioUri) && created.None? ==>
      r.state == Initial && r.trace == [Create(audioUri.value, None), OnError(LoadFailed)]
    ensures !Present(audioUri) ==> r.state == Initial && r.trace == []
  {
    LoadNewAudio(Player(audioUri, Initial, []), true, created)
  }

  datatype Action =
    | StatusReport(status: Status)
    | NewUri(audioUri: Option<string>, unloadOk: bool, created: Option<nat>)
    | Press(created: Option<nat>, callOk: bool)

  function Step(p: Player, a: Action): Player {
    match a
    case StatusReport(status) => StatusUpdate(p, status)
    case NewUri(uri, unloadOk, created) => Rerender(p, uri, unloadOk, created)
    case Press(created, callOk) => HandlePlayPause(p, created, callOk)
  }

  function Run(p: Player, actions: seq<Action>): Player
    decreases |actions|
  {
    if actions == [] then p else Run(Step(p, actions[0]), actions[1..])
  }

  // ---------------------------------------------------------------------------
  // The ownership invariant holds throughout

  lemma StatusUpdateValid(p: Player, status: Status)
    requires Valid(p)
    ensures Valid(StatusUpdate(p, status))
  {
  }

  lemma LoadNewAudioValid(p: Player, unloadOk: bool, created: Option<nat>)
    requires Valid(p)
    ensures Valid(LoadNewAudio(p, unloadOk, created))
  {
    if Present(p.audioUri) {
      var uri := p.audioUri.value;
      var t := p.trace;
      match p.state.sound
      case Some(s) =>
        Snoc(t, Unload(s, unloadOk));
        if unloadOk {
          CreateValid(t + [Unload(s, true)], uri, created);
          assert LoadNewAudio(p, unloadOk, created).trace == t + [Unload(s, true)] + CreateEvents(uri, created);
        }
      case None =>
        CreateValid(t, uri, created);
    }
  }

  /** Creating a handle when none is live keeps the discipline, and leaves
      live exactly the handle created, if any. */
  lemma CreateValid(t: seq<Event>, uri: string, created: Option<nat>)
    requires Disciplined({}, t) && LiveAfter({}, t) == {}
    ensures Disciplined({}, t + CreateEvents(uri, created))
    ensures LiveAfter({}, t + CreateEvents(uri, created)) ==
      match created
      case Some(n) => {Sound(uri, n)}
      case None => {}
  {
    match created
    case Some(n) =>
      Snoc(t, Create(uri, Some(Sound(uri, n))));
    case None =>
      Snoc(t, Create(uri, None));
      Snoc(t + [Create(uri, None)], OnError(LoadFailed));
      assert t + CreateEvents(uri, None) == t + [Create(uri, None)] + [OnError(LoadFailed)];
  }

  /** Reporting the outcome of a play or pause call changes no ownership. */
  lemma CallOutcomeValid(t: seq<Event>, callOk: bool)
    ensures LiveAfter({}, t + CallOutcome(callOk)) == LiveAfter({}, t)
    ensures Disciplined({}, t + CallOutcome(callOk)) <==> Disciplined({}, t)
  {
    if callOk {
      assert t + CallOutcome(callOk) == t;
    } else {
      Snoc(t, OnError(PlayFailed));
    }
  }

  lemma HandlePlayPauseValid(p: Player, created: Option<nat>, callOk: bool)
    requires Valid(p)
    ensures Valid(HandlePlayPause(p, created, callOk))
  {
    var t := p.trace;
    match p.state.sound
    case None =>
      if Present(p.audioUri) {
        var uri := p.audioUri.value;
        CreateValid(t, uri, created);
        if created.Some? {
          var s := Sound(uri, created.value);
          var t1 := t + CreateEvents(uri, created);
          Snoc(t1, Play(s));
          CallOutcomeValid(t1 + [Play(s)], callOk);
        }
      }
    case Some(s) =>
      var call := if p.state.isPlaying then Pause(s) else Play(s);
      Snoc(t, call);
      CallOutcomeValid(t + [call], callOk);
  }

  lemma StepValid(p: Player, a: Action)
    requires Valid(p)
    ensures Valid(Step(p, a))
  {
    match a
    case StatusReport(status) => StatusUpdateValid(p, status);
    case NewUri(uri, unloadOk, created) =>
      if uri != p.audioUri {
        LoadNewAudioValid(p.(audioUri := uri), unloadOk, created);
      }
    case Press(created, callOk) => HandlePlayPauseValid(p, created, callOk);
  }

  /** From mounting on, whatever the props, reports, presses and native
      outcomes: at most one handle is live and it is the held one, no handle
      is created while another is live, and play / pause only ever address
      a live handle. */
  lemma {:induction false} RunValid(p: Player, actions: seq<Action>)
    requires Valid(p)
    ensures Valid(Run(p, actions))
    ensures |Held(Run(p, actions).state)| <= 1
    decreases |actions|
  {
    if actions != [] {
      StepValid(p, actions[0]);
      RunValid(Step(p, actions[0]), actions[1..]);
    }
  }

  lemma MountValid(audioUri: Option<string>, created: Option<nat>)
    ensures Valid(Mount(audioUri, created))
  {
    LoadNewAudioValid(Player(audioUri, Initial, []), true, created);
  }

  // ---------------------------------------------------------------------------
  // Unmounting

  /** Unmounting as the component is written: the `audioUri` effect returns no
      cleanup function, so nothing is called on the native API. */
  function Unmount(p: Player): (r: Player)
    ensures r.trace == p.trace
  {
    p
  }

  /** As written, a handle held when the component unmounts stays live: it is
      never unloaded. */
  lemma UnmountLeaks(p: Player)
    requires Valid(p) && p.state.sound.Some?
    ensures LiveAfter({}, Unmount(p).trace) == {p.state.sound.value}
  {
  }

  /** A concrete run that leaks: mount with a URI that loads, then unmount. */
  lemma UnmountLeaksExample()
    ensures LiveAfter({}, Unmount(Mount(Some("a"), Some(0))).trace) == {Sound("a", 0)}
  {
    MountValid(Some("a"), Some(0));
    UnmountLeaks(Mount(Some("a"), Some(0)));
  }

  /** Unmounting with a cleanup that unloads the held handle (`unloadOk`
      says whether the unload resolved). */
  function UnmountReleasing(p: Player, unloadOk: bool): (r: Player)
    ensures r.state.sound.None? <==> p.state.sound.None? || unloadOk
    ensures p.state.sound.None? ==> r == p
    ensures p.state.sound.Some? ==> r.trace == p.trace + [Unload(p.state.sound.value, unloadOk)]
  {
    match p.state.sound
    case None => p
    case Some(s) =>
      p.(state := if unloadOk then p.state.(sound := None) else p.state,
         trace := p.trace + [Unload(s, unloadOk)])
  }

  /** With the cleanup, the ownership invariant survives unmounting, and once
      the unload resolves no handle is live. */
  lemma UnmountReleasingValid(p: Player, unloadOk: bool)
    requires Valid(p)
    ensures Valid(UnmountReleasing(p, unloadOk))
    ensures unloadOk ==> LiveAfter({}, UnmountReleasing(p, unloadOk).trace) == {}
  {
    if p.state.sound.Some? {
      Snoc(p.trace, Unload(p.state.sound.value, unloadOk));
    }
  }

  /** Whatever the component did while mounted, unmounting with the cleanup
      leaves no handle live. */
  lemma RunThenUnmountReleases(audioUri: Option<string>, created: Option<nat>, actions: seq<Action>)
    ensures LiveAfter({}, UnmountReleasing(Run(Mount(audioUri, created), actions), true).trace) == {}
  {
    MountValid(audioUri, created);
    RunValid(Mount(audioUri, created), actions);
    UnmountReleasingValid(Run(Mount(audioUri, created), actions), true);
  }

  // ---------------------------------------------------------------------------
  // Progress bar

  /** The progress bar's fill width in percent: 0 when the duration is not
      positive, otherwise `position / duration * 100`. */
  function ProgressPercent(position: nat, duration: nat): (r: real)
    ensures duration == 0 ==> r == 0.0
    ensures duration > 0 ==> r * (duration as real) == (position as real) * 100.0
  {
    if duration > 0 then (position as real) / (duration as real) * 100.0 else 0.0
  }

  /** Within the track the fill stays between empty and full, and is full
      exactly at the end. */
  lemma ProgressBounded(position: nat, duration: nat)
    requires position <= duration
    ensures 0.0 <= ProgressPercent(position, duration) <= 100.0
    ensures duration > 0 ==> (ProgressPercent(position, duration) == 100.0 <==> position == duration)
  {
  }
}

/**
 * The mpv front end's session logic (src/mpvobject.cpp): how `MpvObject`
 * reacts to the property-change events mpv reports, clamps seeks, handles
 * the end of the video and the loop restart, picks a frame count, and keeps
 * its time-code text and settings.
 *
 * mpv itself is outside the model. What the object reads from it (events,
 * property queries, the wall clock, the "metadata blocked" flag of the
 * enclosing item) arrives as parameters; what it asks of it is appended to
 * `requests`; every single-shot timer it starts is appended to `scheduled`,
 * and the caller runs the matching method later.
 *
 * The object's members fall into three groups, kept as three records: the
 * transport (play state and position), the media facts, and the time-code
 * state. Each step is a function on a `Session`, the whole state, or on the
 * groups it touches, and the methods of `MpvObject` are proved to move their
 * fields exactly as those functions do.
 */
module Mpv {
  import opened CppMath
  import opened QtText
  import opened Timecode
  import opened MpvTimecode

  // ------------------------------------------------------------- the world

  /**
   * An event `mpv_wait_event` hands back before `MPV_EVENT_NONE`. Property
   * changes carry `None` when `prop->data` is null; a property with an
   * unexpected name or format, and every other event, is `Unhandled`.
   */
  datatype MpvEvent =
    | PauseChanged(paused: Option<bool>)
    | EofReachedChanged(eof: Option<bool>)
    | TimePosChanged(timePos: Option<real>)
    | DurationChanged(length: Option<real>)
    | FpsChanged(rate: Option<real>)
    | MediaTitleChanged(title: Option<string>)
    | FilenameChanged(name: Option<string>)
    | VideoReconfig
    | FileLoaded
    | Unhandled

  /** A timer the object starts; the caller runs the named step when it fires. */
  datatype Deferred =
    | StateChangeTimer       // m_stateChangeTimer, 50 ms: processStateChange
    | EndOfVideoTimer        // 50 ms: handleEndOfVideo
    | FrameCountTimer        // 500 ms: updateFrameCount
    | MetadataTimer          // m_metadataTimer, 500 ms: updateVideoMetadata
    | EmbeddedTimecodeTimer  // 300 ms: fetchEmbeddedTimecode
    | LoadedTimer            // 100 ms: updateFrameCount, then updateTimecode
    | LoopRewindTimer        // 150 ms: back to the start, paused
    | LoopResumeTimer        // 200 ms: play again

  /** What the object asks mpv to do. */
  datatype MpvRequest =
    | SetPause(paused: bool)
    | SeekExact(target: real)
    | SetTimePos(target: real)
    | SetLoop(enabled: bool)

  /**
   * The results of the four frame-count queries of `updateFrameCount`:
   * `estimated-frame-count`, the first track's `demux-frame-count` (`None`
   * also when `track-list` cannot be read) and `frame-count`, each `None`
   * when `mpv_get_property` fails.
   */
  datatype FrameCountProbe = FrameCountProbe(estimated: Option<real>, demux: Option<real>, counted: Option<real>)

  /** What the object reads besides mpv's events while it runs a step. */
  datatype Environment = Environment(now: int, blocked: bool, probe: FrameCountProbe)

  /**
   * The three metadata strings `fetchEmbeddedTimecode` asks for, in order:
   * `chapter-metadata/SMPTE_TIMECODE`, `metadata/timecode` and
   * `metadata/reel_timecode`; `None` is a null answer.
   */
  datatype EmbeddedTags = EmbeddedTags(smpte: Option<string>, metadata: Option<string>, reel: Option<string>)

  // ------------------------------------------------------------ the state

  /**
   * `m_pause`, `m_position`, `m_lastPosition`, `m_duration`, `m_fps`,
   * `m_endReached`, `m_loopEnabled` and `m_lastSeekTime` (milliseconds).
   */
  datatype Transport = Transport(
    pause: bool, position: real, lastPosition: real, duration: real, fps: real,
    endReached: bool, loopEnabled: bool, lastSeekTime: int)

  /**
   * `m_filename`, `m_mediaTitle`, `m_frameCount`, `m_oneBasedFrameNumbers`,
   * and whether `m_metadataTimer` is running.
   */
  datatype MediaInfo = MediaInfo(
    filename: string, mediaTitle: string, frameCount: int, oneBased: bool, metadataTimerActive: bool)

  /**
   * `m_timecode`, `m_timecodeFormat` (0 SMPTE, 1 drop-frame, 2 milliseconds,
   * 3 frames, 4 custom), `m_useEmbeddedTimecode`, `m_embeddedTimecode`,
   * `m_timecodeOffset`, `m_customTimecodePattern` and `m_timecodeSource`
   * (0 computed, 1 to 3 embedded).
   */
  datatype TimecodeState = TimecodeState(
    text: string, format: int, useEmbedded: bool, embedded: string,
    offset: int, pattern: string, source: int)

  /** Every member of `MpvObject` that the modelled code reads or writes. */
  datatype Session = Session(
    transport: Transport, media: MediaInfo, code: TimecodeState,
    scheduled: seq<Deferred>, requests: seq<MpvRequest>)

  /** The state after the constructor, which switches to 1-based frame numbers. */
  function InitialSession(): Session
  {
    Session(Transport(false, 0.0, 0.0, 0.0, 0.0, false, false, 0),
            MediaInfo("", "", 0, true, false),
            TimecodeState(ZeroSmpte, 0, false, "", 0, DefaultCustomPattern, 0),
            [], [])
  }

  // ----------------------------------------------------------- frame count

  /** A query answer as `static_cast<int>(std::round(v))` when it is positive, else 0. */
  function Candidate(v: Option<real>): (c: int)
    ensures c >= 0
  {
    if v.Some? && v.value > 0.0 then Round(v.value) else 0
  }

  /**
   * `updateFrameCount`'s choice, step by step as the code makes it: the
   * first query answer that rounds to a positive count, else
   * `ceil(duration * fps)` when both are positive, and never less than 1.
   */
  function ChosenFrameCount(p: FrameCountProbe, duration: real, fps: real): (n: int)
    ensures n >= 1
  {
    var a := Candidate(p.estimated);
    var b := if a > 0 then a else Candidate(p.demux);
    var c := if b > 0 then b else Candidate(p.counted);
    var d := if c <= 0 && duration > 0.0 && fps > 0.0 then Ceil(duration * fps) else c;
    Max(1, d)
  }

  /** The fallback `updateFrameCount` computes from the duration, 0 when it does not apply. */
  function Fallback(duration: real, fps: real): int
  {
    if duration > 0.0 && fps > 0.0 then Ceil(duration * fps) else 0
  }

  /** The first positive value of a list, 0 when there is none. */
  function FirstPositive(xs: seq<int>): int
  {
    if xs == [] then 0 else if xs[0] > 0 then xs[0] else FirstPositive(xs[1..])
  }

  /** `updateFrameCount` does nothing without a file, while blocked, or within 2 s of a seek. */
  predicate FrameCountSkipped(t: Transport, m: MediaInfo, env: Environment)
  {
    m.filename == [] || env.blocked || (t.lastSeekTime > 0 && env.now - t.lastSeekTime < 2000)
  }

  /** `updateFrameCount`. */
  function CountFrames(t: Transport, m: MediaInfo, env: Environment): (n: MediaInfo)
    ensures n == m.(frameCount := n.frameCount)
    ensures FrameCountSkipped(t, m, env) ==> n == m
    ensures !FrameCountSkipped(t, m, env) ==> n.frameCount >= 1
  {
    if FrameCountSkipped(t, m, env) then m
    else m.(frameCount := ChosenFrameCount(env.probe, t.duration, t.fps))
  }

  // --------------------------------------------------------------- events

  /** The `pause` flag: a change restarts the state-change timer. */
  function PauseStep(s: Session, paused: Option<bool>): Session
  {
    if paused.Some? && s.transport.pause != paused.value then
      s.(transport := s.transport.(pause := paused.value), scheduled := s.scheduled + [StateChangeTimer])
    else s
  }

  /**
   * `processStateChange`, run by the state-change timer: the pause flag
   * takes the pending pause state when they differ. Nothing in the object
   * assigns `m_pendingPauseState`, so it keeps its default, `false`.
   */
  function StateChangeStep(s: Session, pending: bool): (r: Session)
    ensures r.media == s.media && r.code == s.code && r.scheduled == s.scheduled && r.requests == s.requests
    ensures r.transport == s.transport.(pause := pending)
  {
    if s.transport.pause != pending then s.(transport := s.transport.(pause := pending)) else s
  }

  const DefaultPendingPause := false

  /**
   * A pause mpv reports restarts the state-change timer, and when that timer
   * fires with the pending state at its default the object's pause flag is
   * cleared again, while nothing is asked of mpv.
   */
  lemma PauseReportUndone(s: Session)
    requires !s.transport.pause
    ensures var paused := PauseStep(s, Some(true));
            && paused.transport.pause && paused.scheduled == s.scheduled + [StateChangeTimer]
            && var after := StateChangeStep(paused, DefaultPendingPause);
               !after.transport.pause && after.requests == s.requests
  {
  }

  /**
   * The `eof-reached` flag, as written: the object's flag follows mpv's, and
   * when it becomes true `handleEndOfVideo` is scheduled.
   */
  function EofStep(s: Session, eof: Option<bool>): (r: Session)
    ensures r.media == s.media && r.code == s.code && r.requests == s.requests
    ensures r.transport == s.transport.(endReached := r.transport.endReached)
    ensures r.transport.endReached == (if eof.Some? then eof.value else s.transport.endReached)
    ensures r.scheduled == s.scheduled + (if eof == Some(true) && !s.transport.endReached then [EndOfVideoTimer] else [])
  {
    if eof.Some? && s.transport.endReached != eof.value then
      s.(transport := s.transport.(endReached := eof.value),
         scheduled := if eof.value then s.scheduled + [EndOfVideoTimer] else s.scheduled)
    else s
  }

  /**
   * The `eof-reached` flag as it is evidently meant: the end of the file
   * schedules `handleEndOfVideo` and leaves the flag to it, since that
   * handler does nothing once the flag is set; mpv clearing the flag clears
   * the object's.
   */
  function EofStepCorrected(s: Session, eof: Option<bool>): (r: Session)
    ensures r.media == s.media && r.code == s.code && r.requests == s.requests
    ensures r.transport == s.transport.(endReached := r.transport.endReached)
    ensures r.transport.endReached ==> s.transport.endReached
    ensures eof == Some(false) ==> !r.transport.endReached
    ensures r.scheduled == s.scheduled + (if eof == Some(true) && !s.transport.endReached then [EndOfVideoTimer] else [])
  {
    if eof.Some? && s.transport.endReached != eof.value then
      if eof.value then s.(scheduled := s.scheduled + [EndOfVideoTimer])
      else s.(transport := s.transport.(endReached := false))
    else s
  }

  /** A jump of more than half a second from a known position is a seek. */
  predicate IsSeek(previous: real, position: real)
  {
    previous >= 0.0 && AbsReal(position - previous) > 0.5
  }

  /** `time-pos`: the position always follows; a seek also stamps the time. */
  function TimePosStep(t: Transport, timePos: Option<real>, now: int): (u: Transport)
    ensures u == t.(position := u.position, lastSeekTime := u.lastSeekTime)
    ensures u.position == (if timePos.Some? then timePos.value else t.position)
    ensures timePos.Some? && IsSeek(t.position, timePos.value) ==> u.lastSeekTime == now
    ensures !(timePos.Some? && IsSeek(t.position, timePos.value)) ==> u.lastSeekTime == t.lastSeekTime
  {
    if timePos.None? then t
    else t.(position := timePos.value,
            lastSeekTime := if IsSeek(t.position, timePos.value) then now else t.lastSeekTime)
  }

  /** `duration`: changes above 0.1 s are taken, and the frames recounted when the rate is known. */
  function DurationStep(s: Session, length: Option<real>, env: Environment): Session
  {
    if length.Some? && AbsReal(s.transport.duration - length.value) > 0.1 then
      var t := s.transport.(duration := length.value);
      s.(transport := t, media := if t.fps > 0.0 then CountFrames(t, s.media, env) else s.media)
    else s
  }

  /** `estimated-vf-fps`: a positive rate that moved by more than 0.01 is taken and the frames recounted. */
  function FpsStep(s: Session, rate: Option<real>, env: Environment): Session
  {
    if rate.Some? && rate.value > 0.0 && AbsReal(s.transport.fps - rate.value) > 0.01 then
      var t := s.transport.(fps := rate.value);
      s.(transport := t, media := CountFrames(t, s.media, env))
    else s
  }

  /** `media-title`: a different title is taken. */
  function TitleStep(m: MediaInfo, title: Option<string>): MediaInfo
  {
    if title.Some? && m.mediaTitle != title.value then m.(mediaTitle := title.value) else m
  }

  /** `filename`: a different name is taken. */
  function FilenameStep(m: MediaInfo, name: Option<string>): MediaInfo
  {
    if name.Some? && m.filename != name.value then m.(filename := name.value) else m
  }

  /**
   * `MPV_EVENT_FILE_LOADED`: the metadata timer unless it runs, the time
   * code back to zero, the embedded fetch when one is wanted, and the
   * loaded timer.
   */
  function FileLoadedStep(s: Session): Session
  {
    var startMetadata := !s.media.metadataTimerActive;
    var fetch := s.code.useEmbedded || s.code.source > 0;
    s.(media := s.media.(metadataTimerActive := true),
       code := s.code.(text := ZeroSmpte, embedded := ""),
       scheduled := s.scheduled + (if startMetadata then [MetadataTimer] else [])
                                + (if fetch then [EmbeddedTimecodeTimer] else []) + [LoadedTimer])
  }

  /** One turn of the `handleMpvEvents` loop. */
  function ApplyEvent(s: Session, e: MpvEvent, env: Environment): Session
  {
    match e
    case PauseChanged(p) => PauseStep(s, p)
    case EofReachedChanged(f) => EofStep(s, f)
    case TimePosChanged(t) => s.(transport := TimePosStep(s.transport, t, env.now))
    case DurationChanged(d) => DurationStep(s, d, env)
    case FpsChanged(r) => FpsStep(s, r, env)
    case MediaTitleChanged(t) => s.(media := TitleStep(s.media, t))
    case FilenameChanged(n) => s.(media := FilenameStep(s.media, n))
    case VideoReconfig => if s.transport.pause then s.(scheduled := s.scheduled + [FrameCountTimer]) else s
    case FileLoaded => FileLoadedStep(s)
    case Unhandled => s
  }

  /** `handleMpvEvents`: the events in the order mpv reports them. */
  function Drain(s: Session, events: seq<MpvEvent>, env: Environment): Session
  {
    if events == [] then s else ApplyEvent(Drain(s, events[..|events| - 1], env), events[|events| - 1], env)
  }

  // ---------------------------------------------------- seeking and the end

  /** `seekToPosition`: nothing without a duration; otherwise a clamped exact seek. */
  function SeekStep(s: Session, pos: real, now: int): (r: Session)
    ensures s.transport.duration <= 0.0 ==> r == s
    ensures s.transport.duration > 0.0 ==>
      var p := r.transport.position;
      && r.media == s.media && r.code == s.code && r.scheduled == s.scheduled
      && r.transport == s.transport.(lastSeekTime := now, endReached := false, position := p, lastPosition := p)
      && r.requests == s.requests + [SeekExact(p)]
      && p >= 0.0 && (p <= s.transport.duration - 0.1 || p == 0.0)
      && (0.0 <= pos <= s.transport.duration - 0.1 ==> p == pos)
  {
    if s.transport.duration <= 0.0 then s
    else
      var target := BoundReal(0.0, pos, s.transport.duration - 0.1);
      s.(transport := s.transport.(lastSeekTime := now, endReached := false, position := target,
                                   lastPosition := target),
         requests := s.requests + [SeekExact(target)])
  }

  /**
   * Where `handleEndOfVideo` parks the player: two frames before the end
   * (0.1 s when the rate is unknown), but not before 95% of the video and
   * not before 0.
   */
  function SafeEndPosition(duration: real, fps: real): (p: real)
    ensures p >= 0.0 && p >= duration * 0.95
  {
    var lastFrame := if fps > 0.0 then duration - 2.0 / fps else duration - 0.1;
    MaxReal(0.0, MaxReal(lastFrame, duration * 0.95))
  }

  /**
   * `handleEndOfVideo`: once only, pause (asking mpv when it plays), then
   * with a known duration park at the safe end position and, when looping,
   * schedule the restart.
   */
  function EndOfVideo(s: Session): (r: Session)
    ensures s.transport.endReached ==> r == s
    ensures r.transport.endReached && (!s.transport.endReached ==> r.transport.pause)
    ensures r.media == s.media && r.code == s.code
    ensures r.transport.loopEnabled == s.transport.loopEnabled && r.transport.duration == s.transport.duration
    ensures !s.transport.endReached && s.transport.duration > 0.0 ==>
      r.transport.position == SafeEndPosition(s.transport.duration, s.transport.fps)
      && |r.requests| >= 2 && r.requests[|r.requests| - 1] == SetTimePos(r.transport.position)
  {
    var t := s.transport;
    if t.endReached then s
    else
      var pauseRequest := if t.pause then [] else [SetPause(true)];
      if t.duration > 0.0 then
        var p := SafeEndPosition(t.duration, t.fps);
        s.(transport := t.(endReached := true, pause := true, position := p, lastPosition := p),
           requests := s.requests + pauseRequest + [SetPause(true), SetTimePos(p)],
           scheduled := if t.loopEnabled then s.scheduled + [LoopRewindTimer] else s.scheduled)
      else
        s.(transport := t.(endReached := true, pause := true), requests := s.requests + pauseRequest)
  }

  /** The first loop step: back to the start, still paused. */
  function LoopRewind(s: Session): (r: Session)
    ensures r.media == s.media && r.code == s.code
    ensures r.transport.position == 0.0 && r.transport.pause == s.transport.pause
            && r.transport.endReached == s.transport.endReached && r.transport.loopEnabled == s.transport.loopEnabled
    ensures r.requests == s.requests + [SetPause(true), SetTimePos(0.0)]
    ensures r.scheduled == s.scheduled + [LoopResumeTimer]
  {
    s.(transport := s.transport.(position := 0.0, lastPosition := 0.0),
       requests := s.requests + [SetPause(true), SetTimePos(0.0)],
       scheduled := s.scheduled + [LoopResumeTimer])
  }

  /** The second loop step: play again and clear the end flag. */
  function LoopResume(s: Session): (r: Session)
    ensures r.media == s.media && r.code == s.code && r.scheduled == s.scheduled
    ensures !r.transport.pause && !r.transport.endReached && r.transport.position == s.transport.position
    ensures r.requests == s.requests + [SetPause(false)]
  {
    s.(transport := s.transport.(pause := false, endReached := false), requests := s.requests + [SetPause(false)])
  }

  /** `setProperty("pause", paused)`, through which `play` and `pause` go. */
  function SetPauseStep(s: Session, paused: bool): (r: Session)
    ensures r.media == s.media && r.code == s.code && r.scheduled == s.scheduled
    ensures r.transport == s.transport.(pause := paused)
    ensures r.requests == s.requests + [SetPause(paused)]
  {
    s.(transport := s.transport.(pause := paused), requests := s.requests + [SetPause(paused)])
  }

  /** `playPause`. */
  function TogglePause(s: Session): (r: Session)
    ensures r.transport.pause == !s.transport.pause
    ensures r.requests == s.requests + [SetPause(r.transport.pause)]
    ensures r.media == s.media && r.code == s.code && r.scheduled == s.scheduled
  {
    SetPauseStep(s, !s.transport.pause)
  }

  /** `setLoopEnabled`: a change is passed on to mpv. */
  function SetLoopStep(s: Session, enabled: bool): (r: Session)
    ensures r.transport == s.transport.(loopEnabled := enabled)
    ensures r.requests == s.requests + (if s.transport.loopEnabled != enabled then [SetLoop(enabled)] else [])
    ensures r.media == s.media && r.code == s.code && r.scheduled == s.scheduled
  {
    if s.transport.loopEnabled != enabled then
      s.(transport := s.transport.(loopEnabled := enabled), requests := s.requests + [SetLoop(enabled)])
    else s
  }

  // ------------------------------------------------------------ time code

  /** `fetchEmbeddedTimecode`: the first non-empty answer, else the empty text. */
  function FetchedTimecode(tags: EmbeddedTags): (t: string)
    ensures t == [] <==> (tags.smpte.None? || tags.smpte.value == []) && (tags.metadata.None? || tags.metadata.value == [])
                         && (tags.reel.None? || tags.reel.value == [])
    ensures t != [] ==> (tags.smpte.Some? && t == tags.smpte.value) || (tags.metadata.Some? && t == tags.metadata.value)
                        || (tags.reel.Some? && t == tags.reel.value)
  {
    if tags.smpte.Some? && tags.smpte.value != [] then tags.smpte.value
    else if tags.metadata.Some? && tags.metadata.value != [] then tags.metadata.value
    else if tags.reel.Some? && tags.reel.value != [] then tags.reel.value
    else ""
  }

  /** The frame `updateTimecode` labels: `qRound(position * fps)` plus the offset. */
  function LabelledFrame(t: Transport, c: TimecodeState): int
  {
    Round(t.position * t.fps) + c.offset
  }

  /** The text `updateTimecode` computes for the labelled frame, in the object's own format. */
  function ComputedTimecode(t: Transport, c: TimecodeState): string
  {
    MpvFrameToTimecode(LabelledFrame(t, c), c.format, c.pattern, c.format, c.pattern, t.fps)
  }

  /**
   * `updateTimecode`: nothing without a rate or at a negative position, or
   * while an embedded time code is in use; a positive source fetches the
   * embedded one first and keeps the text when it finds one; otherwise the
   * computed text of the labelled frame.
   */
  function UpdateTimecode(t: Transport, c: TimecodeState, tags: EmbeddedTags): (d: TimecodeState)
    ensures t.fps <= 0.0 || t.position < 0.0 || (c.useEmbedded && c.embedded != []) ==> d == c
    ensures d == c.(text := d.text, embedded := d.embedded)
    ensures d.text != c.text ==> d.text == ComputedTimecode(t, d)
  {
    if t.fps <= 0.0 || t.position < 0.0 then c
    else if c.useEmbedded && c.embedded != [] then c
    else if c.source > 0 && FetchedTimecode(tags) != [] then c.(embedded := FetchedTimecode(tags))
    else
      var d := if c.source > 0 then c.(embedded := "") else c;
      d.(text := ComputedTimecode(t, d))
  }

  /** The step the file-loaded timer runs: recount the frames, then refresh the time code. */
  function AfterLoad(s: Session, env: Environment, tags: EmbeddedTags): Session
  {
    s.(media := CountFrames(s.transport, s.media, env), code := UpdateTimecode(s.transport, s.code, tags))
  }

  /** `setTimecodeFormat`: formats 0 to 4 are taken, and the text refreshed. */
  function SetFormatStep(t: Transport, c: TimecodeState, format: int, tags: EmbeddedTags): (d: TimecodeState)
    ensures d.format == (if 0 <= format <= 4 then format else c.format)
    ensures d == c.(format := d.format, text := d.text, embedded := d.embedded)
    ensures !(0 <= format <= 4) ==> d == c
  {
    if c.format != format && 0 <= format <= 4 then UpdateTimecode(t, c.(format := format), tags) else c
  }

  /** `setUseEmbeddedTimecode`: switching on fetches, switching off recomputes. */
  function SetUseEmbeddedStep(t: Transport, c: TimecodeState, use: bool, tags: EmbeddedTags): (d: TimecodeState)
    ensures d.useEmbedded == use
    ensures d == c.(useEmbedded := use, text := d.text, embedded := d.embedded)
    ensures use && !c.useEmbedded ==> d.embedded == FetchedTimecode(tags) && d.text == c.text
  {
    if c.useEmbedded == use then c
    else if use then c.(useEmbedded := true, embedded := FetchedTimecode(tags))
    else UpdateTimecode(t, c.(useEmbedded := false), tags)
  }

  /** `setTimecodeOffset`. */
  function SetOffsetStep(t: Transport, c: TimecodeState, offset: int, tags: EmbeddedTags): (d: TimecodeState)
    ensures d == c.(offset := offset, text := d.text, embedded := d.embedded)
  {
    if c.offset != offset then UpdateTimecode(t, c.(offset := offset), tags) else c
  }

  /** `setCustomTimecodePattern`: a non-empty pattern is taken, and applied while format 4 is shown. */
  function SetPatternStep(t: Transport, c: TimecodeState, pattern: string, tags: EmbeddedTags): (d: TimecodeState)
    ensures d.pattern == (if pattern != [] then pattern else c.pattern)
    ensures d == c.(pattern := d.pattern, text := d.text, embedded := d.embedded)
    ensures c.format != 4 ==> d.text == c.text && d.embedded == c.embedded
  {
    if c.pattern != pattern && pattern != [] then
      if c.format == 4 then UpdateTimecode(t, c.(pattern := pattern), tags) else c.(pattern := pattern)
    else c
  }

  /** `setTimecodeSource`: sources 0 to 3 are taken, and the text refreshed. */
  function SetSourceStep(t: Transport, c: TimecodeState, source: int, tags: EmbeddedTags): (d: TimecodeState)
    ensures d.source == (if 0 <= source <= 3 then source else c.source)
    ensures d == c.(source := d.source, text := d.text, embedded := d.embedded)
    ensures !(0 <= source <= 3) ==> d == c
  {
    if c.source != source && 0 <= source <= 3 then UpdateTimecode(t, c.(source := source), tags) else c
  }

  /** `setOneBasedFrameNumbers`: a change recounts the frames. */
  function SetOneBasedStep(t: Transport, m: MediaInfo, oneBased: bool, env: Environment): (n: MediaInfo)
    ensures n == m.(oneBased := oneBased, frameCount := n.frameCount)
  {
    if m.oneBased != oneBased then CountFrames(t, m.(oneBased := oneBased), env) else m
  }

  // ------------------------------------------------------- frame numbering

  /** `displayFrameNumber`. */
  function DisplayFrame(oneBased: bool, internalFrame: int): int
  {
    if oneBased then internalFrame + 1 else internalFrame
  }

  /** `internalFrameNumber`. */
  function InternalFrame(oneBased: bool, displayFrame: int): int
  {
    if oneBased then displayFrame - 1 else displayFrame
  }

  // ------------------------------------------------------------- the class

  class MpvObject {
    var transport: Transport
    var media: MediaInfo
    var code: TimecodeState
    var scheduled: seq<Deferred>
    var requests: seq<MpvRequest>

    function Snapshot(): Session
      reads this
    {
      Session(transport, media, code, scheduled, requests)
    }

    constructor ()
      ensures Snapshot() == InitialSession()
    {
      transport := Transport(false, 0.0, 0.0, 0.0, 0.0, false, false, 0);
      media := MediaInfo("", "", 0, true, false);
      code := TimecodeState(ZeroSmpte, 0, false, "", 0, DefaultCustomPattern, 0);
      scheduled := [];
      requests := [];
    }

    /** `handleMpvEvents`: drains the events mpv has queued. */
    method HandleMpvEvents(events: seq<MpvEvent>, env: Environment)
      modifies this
      ensures Snapshot() == Drain(old(Snapshot()), events, env)
    {
      var i := 0;
      while i < |events|
        invariant 0 <= i <= |events|
        invariant Snapshot() == Drain(old(Snapshot()), events[..i], env)
      {
        assert events[..i + 1][..i] == events[..i];
        ApplyOne(events[i], env);
        i := i + 1;
      }
      assert events[..|events|] == events;
    }

    /** The `switch` of `handleMpvEvents` for one event. */
    method ApplyOne(e: MpvEvent, env: Environment)
      modifies this
      ensures Snapshot() == ApplyEvent(old(Snapshot()), e, env)
    {
      match e
      case PauseChanged(p) =>
        if p.Some? && transport.pause != p.value {
          transport := transport.(pause := p.value);
          scheduled := scheduled + [StateChangeTimer];
        }
      case EofReachedChanged(f) =>
        OnEofReached(f);
      case TimePosChanged(t) =>
        if t.Some? {
          var isSeek := transport.position >= 0.0 && AbsReal(t.value - transport.position) > 0.5;
          transport := transport.(position := t.value);
          if isSeek {
            transport := transport.(lastSeekTime := env.now);
          }
        }
      case DurationChanged(d) =>
        if d.Some? && AbsReal(transport.duration - d.value) > 0.1 {
          transport := transport.(duration := d.value);
          if transport.fps > 0.0 {
            UpdateFrameCount(env);
          }
        }
      case FpsChanged(r) =>
        if r.Some? && r.value > 0.0 && AbsReal(transport.fps - r.value) > 0.01 {
          transport := transport.(fps := r.value);
          UpdateFrameCount(env);
        }
      case MediaTitleChanged(t) =>
        if t.Some? && media.mediaTitle != t.value {
          media := media.(mediaTitle := t.value);
        }
      case FilenameChanged(n) =>
        if n.Some? && media.filename != n.value {
          media := media.(filename := n.value);
        }
      case VideoReconfig =>
        if transport.pause {
          scheduled := scheduled + [FrameCountTimer];
        }
      case FileLoaded =>
        OnFileLoaded();
      case Unhandled =>
    }

    /**
     * The `eof-reached` property as written: the flag follows mpv's, and
     * its rise schedules `handleEndOfVideo`.
     */
    method OnEofReached(f: Option<bool>)
      modifies this
      ensures Snapshot() == EofStep(old(Snapshot()), f)
    {
      if f.Some? && transport.endReached != f.value {
        transport := transport.(endReached := f.value);
        if f.value {
          scheduled := scheduled + [EndOfVideoTimer];
        }
      }
    }

    /** The `eof-reached` property as evidently meant, with the end handling left to `handleEndOfVideo`. */
    method OnEofReachedCorrected(f: Option<bool>)
      modifies this
      ensures Snapshot() == EofStepCorrected(old(Snapshot()), f)
    {
      if f.Some? && transport.endReached != f.value {
        if f.value {
          scheduled := scheduled + [EndOfVideoTimer];
        } else {
          transport := transport.(endReached := false);
        }
      }
    }

    /** `MPV_EVENT_FILE_LOADED`. */
    method OnFileLoaded()
      modifies this
      ensures Snapshot() == FileLoadedStep(old(Snapshot()))
    {
      if !media.metadataTimerActive {
        media := media.(metadataTimerActive := true);
        scheduled := scheduled + [MetadataTimer];
      }
      code := code.(text := ZeroSmpte, embedded := "");
      if code.useEmbedded || code.source > 0 {
        scheduled := scheduled + [EmbeddedTimecodeTimer];
      }
      scheduled := scheduled + [LoadedTimer];
    }

    /** `updateFrameCount`. */
    method UpdateFrameCount(env: Environment)
      modifies this`media
      ensures media == CountFrames(transport, old(media), env)
    {
      if media.filename == [] || env.blocked {
        return;
      }
      if transport.lastSeekTime > 0 && env.now - transport.lastSeekTime < 2000 {
        return;
      }
      var finalFrameCount := 0;
      if env.probe.estimated.Some? && env.probe.estimated.value > 0.0 {
        finalFrameCount := Round(env.probe.estimated.value);
      }
      if finalFrameCount <= 0 && env.probe.demux.Some? && env.probe.demux.value > 0.0 {
        finalFrameCount := Round(env.probe.demux.value);
      }
      if finalFrameCount <= 0 && env.probe.counted.Some? && env.probe.counted.value > 0.0 {
        finalFrameCount := Round(env.probe.counted.value);
      }
      if finalFrameCount <= 0 && transport.duration > 0.0 && transport.fps > 0.0 {
        finalFrameCount := Ceil(transport.duration * transport.fps);
      }
      assert !FrameCountSkipped(transport, media, env);
      assert Max(1, finalFrameCount) == ChosenFrameCount(env.probe, transport.duration, transport.fps);
      media := media.(frameCount := Max(1, finalFrameCount));
    }

    /** `seekToPosition(pos)` at wall-clock time `now`. */
    method SeekToPosition(pos: real, now: int)
      modifies this
      ensures Snapshot() == SeekStep(old(Snapshot()), pos, now)
    {
      if transport.duration <= 0.0 {
        return;
      }
      transport := transport.(lastSeekTime := now);
      ResetEndReached();
      var safePosition := BoundReal(0.0, pos, transport.duration - 0.1);
      requests := requests + [SeekExact(safePosition)];
      transport := transport.(position := safePosition, lastPosition := safePosition);
    }

    /** `resetEndReached`. */
    method ResetEndReached()
      modifies this`transport
      ensures transport == old(transport).(endReached := false)
    {
      if transport.endReached {
        transport := transport.(endReached := false);
      }
    }

    /** `handleEndOfVideo`, run by the end-of-video timer. */
    method HandleEndOfVideo()
      modifies this
      ensures Snapshot() == EndOfVideo(old(Snapshot()))
    {
      if transport.endReached {
        return;
      }
      transport := transport.(endReached := true);
      if !transport.pause {
        requests := requests + [SetPause(true)];
        transport := transport.(pause := true);
      }
      if transport.duration > 0.0 {
        var duration := transport.duration;
        var lastFramePos := if transport.fps > 0.0 then duration - 2.0 / transport.fps else duration - 0.1;
        lastFramePos := MaxReal(lastFramePos, duration * 0.95);
        lastFramePos := MaxReal(0.0, lastFramePos);
        transport := transport.(position := lastFramePos, lastPosition := lastFramePos);
        requests := requests + [SetPause(true), SetTimePos(lastFramePos)];
        if transport.loopEnabled {
          scheduled := scheduled + [LoopRewindTimer];
        }
      }
    }

    /** The first loop timer of `handleEndOfVideo`. */
    method LoopRewindStep()
      modifies this
      ensures Snapshot() == LoopRewind(old(Snapshot()))
    {
      requests := requests + [SetPause(true), SetTimePos(0.0)];
      transport := transport.(position := 0.0, lastPosition := 0.0);
      scheduled := scheduled + [LoopResumeTimer];
    }

    /** The second loop timer of `handleEndOfVideo`. */
    method LoopResumeStep()
      modifies this
      ensures Snapshot() == LoopResume(old(Snapshot()))
    {
      requests := requests + [SetPause(false)];
      transport := transport.(pause := false, endReached := false);
    }

    /** `play`. */
    method Play()
      modifies this
      ensures Snapshot() == SetPauseStep(old(Snapshot()), false)
    {
      requests := requests + [SetPause(false)];
      transport := transport.(pause := false);
    }

    /** `pause`. */
    method Pause()
      modifies this
      ensures Snapshot() == SetPauseStep(old(Snapshot()), true)
    {
      requests := requests + [SetPause(true)];
      transport := transport.(pause := true);
    }

    /** `playPause`. */
    method PlayPause()
      modifies this
      ensures Snapshot() == TogglePause(old(Snapshot()))
    {
      var paused := transport.pause;
      requests := requests + [SetPause(!paused)];
      transport := transport.(pause := !paused);
    }

    /** `setLoopEnabled`. */
    method SetLoopEnabled(enabled: bool)
      modifies this
      ensures Snapshot() == SetLoopStep(old(Snapshot()), enabled)
    {
      if transport.loopEnabled != enabled {
        transport := transport.(loopEnabled := enabled);
        requests := requests + [SetLoop(enabled)];
      }
    }

    /** `fetchEmbeddedTimecode`. */
    method FetchEmbeddedTimecode(tags: EmbeddedTags)
      modifies this`code
      ensures code == old(code).(embedded := FetchedTimecode(tags))
    {
      if tags.smpte.Some? && tags.smpte.value != [] {
        code := code.(embedded := tags.smpte.value);
        return;
      }
      if tags.metadata.Some? && tags.metadata.value != [] {
        code := code.(embedded := tags.metadata.value);
        return;
      }
      if tags.reel.Some? && tags.reel.value != [] {
        code := code.(embedded := tags.reel.value);
        return;
      }
      code := code.(embedded := "");
    }

    /** `updateTimecode`, run by the loaded timer and by the setters. */
    method UpdateTimecodeStep(tags: EmbeddedTags)
      modifies this`code
      ensures code == UpdateTimecode(transport, old(code), tags)
    {
      if transport.fps <= 0.0 || transport.position < 0.0 {
        return;
      }
      if code.useEmbedded && code.embedded != [] {
        return;
      }
      if code.source > 0 {
        FetchEmbeddedTimecode(tags);
        if code.embedded != [] {
          return;
        }
      }
      var newTimecode := ComputedTimecode(transport, code);
      if newTimecode != code.text {
        code := code.(text := newTimecode);
      }
    }

    /** The file-loaded timer: recount the frames, then refresh the time code. */
    method AfterFileLoaded(env: Environment, tags: EmbeddedTags)
      modifies this`media, this`code
      ensures media == CountFrames(transport, old(media), env)
      ensures code == UpdateTimecode(transport, old(code), tags)
    {
      UpdateFrameCount(env);
      UpdateTimecodeStep(tags);
    }

    /** The state-change timer has fired: `processStateChange` with the pending pause state. */
    method ProcessStateChange(pending: bool)
      modifies this`transport
      ensures Snapshot() == StateChangeStep(old(Snapshot()), pending)
    {
      if transport.pause != pending {
        transport := transport.(pause := pending);
      }
    }

    /** The metadata timer has fired; the metadata fetch itself is not modelled. */
    method MetadataTimerFired()
      modifies this`media
      ensures media == old(media).(metadataTimerActive := false)
    {
      media := media.(metadataTimerActive := false);
    }

    /** `setTimecodeFormat`. */
    method SetTimecodeFormat(format: int, tags: EmbeddedTags)
      modifies this`code
      ensures code == SetFormatStep(transport, old(code), format, tags)
    {
      if code.format != format && format >= 0 && format <= 4 {
        code := code.(format := format);
        UpdateTimecodeStep(tags);
      }
    }

    /** `setUseEmbeddedTimecode`. */
    method SetUseEmbeddedTimecode(use: bool, tags: EmbeddedTags)
      modifies this`code
      ensures code == SetUseEmbeddedStep(transport, old(code), use, tags)
    {
      if code.useEmbedded != use {
        code := code.(useEmbedded := use);
        if use {
          FetchEmbeddedTimecode(tags);
        } else {
          UpdateTimecodeStep(tags);
        }
      }
    }

    /** `setTimecodeOffset`. */
    method SetTimecodeOffset(offset: int, tags: EmbeddedTags)
      modifies this`code
      ensures code == SetOffsetStep(transport, old(code), offset, tags)
    {
      if code.offset != offset {
        code := code.(offset := offset);
        UpdateTimecodeStep(tags);
      }
    }

    /** `setCustomTimecodePattern`. */
    method SetCustomTimecodePattern(pattern: string, tags: EmbeddedTags)
      modifies this`code
      ensures code == SetPatternStep(transport, old(code), pattern, tags)
    {
      if code.pattern != pattern && pattern != [] {
        code := code.(pattern := pattern);
        if code.format == 4 {
          UpdateTimecodeStep(tags);
        }
      }
    }

    /** `setTimecodeSource`. */
    method SetTimecodeSource(source: int, tags: EmbeddedTags)
      modifies this`code
      ensures code == SetSourceStep(transport, old(code), source, tags)
    {
      if code.source != source && source >= 0 && source <= 3 {
        code := code.(source := source);
        UpdateTimecodeStep(tags);
      }
    }

    /** `setOneBasedFrameNumbers`. */
    method SetOneBasedFrameNumbers(oneBased: bool, env: Environment)
      modifies this`media
      ensures media == SetOneBasedStep(transport, old(media), oneBased, env)
    {
      if media.oneBased != oneBased {
        media := media.(oneBased := oneBased);
        UpdateFrameCount(env);
      }
    }

    /** `displayFrameNumber`. */
    function DisplayFrameNumber(internalFrame: int): (d: int)
      reads this
      ensures InternalFrame(media.oneBased, d) == internalFrame
    {
      DisplayFrame(media.oneBased, internalFrame)
    }

    /** `internalFrameNumber`. */
    function InternalFrameNumber(displayFrame: int): (i: int)
      reads this
      ensures DisplayFrame(media.oneBased, i) == displayFrame
    {
      InternalFrame(media.oneBased, displayFrame)
    }
  }
}

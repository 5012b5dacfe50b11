/**
 * The QML item over the FFmpeg engine (src/FFmpegObject.cpp): it mirrors
 * the engine's state through its `onEngine*Changed` slots (numbers only when
 * they move by more than a millisecond, the rest only when they change),
 * handles the end of a file and looping, turns `command` lists into engine
 * calls, and computes the time code it shows.
 *
 * The object talks to its engine by calls and hears back by signals. Here
 * its calls are appended to `requests` and the engine's signals arrive as
 * calls of the slot methods; the engine's answer to `isPaused()` after a
 * pause and to `openFile` are parameters, as is the wall-clock time. Every
 * signal the object emits is appended to `notices`.
 */
module FrontEnd {
  import opened CppMath
  import opened QtText
  import Timecode
  import TimecodeLemmas
  import Mpv
  import QtUrl
  import Engine

  /** A call made on the engine. */
  datatype EngineRequest =
    | EnginePlay
    | EnginePause
    | EngineSeek(position: real)
    | EngineSeekToFrame(frame: int)
    | EngineOpen(filename: string)
    | EngineSetTimecodeFormat(format: int)
    | EngineSetProperty(name: string, value: Engine.Variant)
    | EngineGetProperty(name: string)

  /** The object's signals, with their arguments. */
  datatype Notice =
    | PositionChanged(position: real)
    | DurationChanged(duration: real)
    | FpsChanged(fps: real)
    | FrameCountChanged(count: int)
    | PauseChanged(paused: bool)
    | PlayingChanged(playing: bool)
    | TextChanged(property: TextProperty, text: string)
    | FileLoaded
    | EndReached
    | EndReachedChanged(reached: bool)
    | FlagChanged(flag: Flag, enabled: bool)
    | NumberChanged(setting: NumberSetting, number: int)
    | VideoMetadataChanged

  /** The text properties the object mirrors or keeps, each with its own `...Changed` signal. */
  datatype TextProperty = Filename | MediaTitle | VideoCodec | VideoFormat | VideoResolution
                        | TimecodeText | EmbeddedTimecode | CustomPattern

  /** The boolean settings, each with its own `...Changed` signal. */
  datatype Flag = Loop | OneBased | KeepOpen | UseEmbedded

  /** The integer time code settings, each with its own `...Changed` signal. */
  datatype NumberSetting = TimecodeFormat | TimecodeOffset | TimecodeSource

  /** One entry of a `command` list, as `toString()` and `toDouble()` read it. */
  datatype Param = Param(text: string, number: real)

  /** What the object mirrors of playback. */
  datatype Playback = Playback(paused: bool, position: real, lastPosition: real, duration: real, fps: real,
                               frameCount: int, endReached: bool)

  /** The playback options. */
  datatype Options = Options(loop: bool, oneBased: bool, keepOpen: bool)

  /** The time code shown and how it is made. */
  datatype TimecodeSettings = TimecodeSettings(text: string, format: int, useEmbedded: bool, embedded: string,
                                               offset: int, pattern: string, source: int)

  /** The descriptive texts the engine reports. */
  datatype MediaText = MediaText(filename: string, title: string, codec: string, format: string, resolution: string)

  /** The threshold of the numeric `onEngine*Changed` slots: one millisecond (or 0.001 frames per second). */
  const Threshold: real := 0.001

  /** A numeric slot's rule: the incoming value is taken when it differs by more than the threshold. */
  predicate Moves(current: real, incoming: real)
  {
    AbsReal(current - incoming) > Threshold
  }

  /** `onEnginePositionChanged` on the mirrored playback. */
  function FollowPosition(pb: Playback, incoming: real): (q: Playback)
    ensures Moves(pb.position, incoming) ==> q == pb.(lastPosition := pb.position, position := incoming)
    ensures !Moves(pb.position, incoming) ==> q == pb
  {
    if Moves(pb.position, incoming) then pb.(lastPosition := pb.position, position := incoming) else pb
  }

  /** Hearing the same position twice changes nothing the second time. */
  lemma FollowPositionIdempotent(pb: Playback, incoming: real)
    ensures FollowPosition(FollowPosition(pb, incoming), incoming) == FollowPosition(pb, incoming)
  {
    if Moves(pb.position, incoming) {
      assert !Moves(incoming, incoming);
    }
  }

  /** After a position is heard the mirror is within the threshold of it. */
  lemma FollowPositionCloses(pb: Playback, incoming: real)
    ensures AbsReal(FollowPosition(pb, incoming).position - incoming) <= Threshold
  {
  }

  /** The target of `frame-step`: one frame on. */
  function StepTarget(position: real, fps: real): (t: real)
    requires fps > 0.0
    ensures t > position
  {
    position + 1.0 / fps
  }

  /** The target of `frame-back-step`: one frame back, but not before 0. */
  function BackStepTarget(position: real, fps: real): (t: real)
    requires fps > 0.0
    ensures t >= 0.0
    ensures position >= 0.0 ==> t <= position
    ensures position >= 1.0 / fps ==> t == position - 1.0 / fps
  {
    MaxReal(0.0, position - 1.0 / fps)
  }

  /** A step back undoes a step on from any position not before the start. */
  lemma BackStepUndoesStep(position: real, fps: real)
    requires fps > 0.0 && position >= 0.0
    ensures BackStepTarget(StepTarget(position, fps), fps) == position
  {
  }

  /**
   * The name `command`'s `loadfile` opens: a "file://" URL becomes its
   * local file, as QUrl gives it on the platform (Windows when `windows`);
   * any other text is opened as it is.
   */
  function LocalFile(name: string, windows: bool): (path: string)
    ensures !(QtUrl.FileScheme <= name) ==> path == name
  {
    if QtUrl.FileScheme <= name then QtUrl.ToLocalFile(name[|QtUrl.FileScheme|..], windows) else name
  }

  /** A local path written as a file URL is opened under that path (less the slash before a Windows drive). */
  lemma LocalFileOfUrl(path: string, windows: bool)
    requires |path| > 0 && path[0] == '/'
    ensures LocalFile(QtUrl.FileScheme + QtUrl.PercentEncode(path), windows)
            == if windows && |path| > 2 && path[2] == ':' then path[1..] else path
  {
    var url := QtUrl.FileScheme + QtUrl.PercentEncode(path);
    assert url[|QtUrl.FileScheme|..] == QtUrl.PercentEncode(path);
    QtUrl.LocalPathRoundTrip(path, windows);
  }

  /**
   * `calculateTimecode`'s text: an enabled, non-empty embedded time code;
   * otherwise the frame under the position plus the offset, written with
   * the custom pattern in the custom format and with `frameToTimecode` in
   * any other.
   */
  function ShownTimecode(c: TimecodeSettings, position: real, fps: real): (t: string)
    ensures c.useEmbedded && c.embedded != "" ==> t == c.embedded
  {
    if c.useEmbedded && c.embedded != "" then c.embedded
    else CodedTimecode(c, Timecode.FrameAt(position, fps) + c.offset, fps)
  }

  /** The text of a frame in the object's format and pattern. */
  function CodedTimecode(c: TimecodeSettings, frame: int, fps: real): string
  {
    if Timecode.FormatOf(c.format) == Timecode.Custom then Timecode.FrameToCustom(frame, fps, c.pattern)
    else Timecode.FrameToTimecode(frame, fps, Timecode.FormatOf(c.format))
  }

  /**
   * Without an embedded time code and in the frames-only format, the shown
   * text reads back as the frame under the position plus the offset.
   */
  lemma ShownFramesOnlyReadsBack(c: TimecodeSettings, position: real, fps: real)
    requires fps > 0.0 && c.format == 3 && !(c.useEmbedded && c.embedded != "")
    requires InInt32(Timecode.FrameAt(position, fps) + c.offset)
    ensures Timecode.TimecodeToFrame(ShownTimecode(c, position, fps), fps, Timecode.FramesOnly)
            == Timecode.FrameAt(position, fps) + c.offset
  {
    var frame := Timecode.FrameAt(position, fps) + c.offset;
    assert Timecode.FormatOf(3) == Timecode.FramesOnly;
    assert ShownTimecode(c, position, fps) == Timecode.FrameToTimecode(frame, fps, Timecode.FramesOnly);
    TimecodeLemmas.FramesOnlyRoundTrip(frame, fps);
  }

  class FFmpegObject {
    var playback: Playback
    var options: Options
    var code: TimecodeSettings
    var info: MediaText
    /** Whether `m_timecodeTimer` and the single-shot `m_metadataTimer` are running. */
    var timecodeTimer: bool
    var metadataTimer: bool
    /** `m_lastSeekTime`, in milliseconds since the epoch. */
    var lastSeekTime: int
    var requests: seq<EngineRequest>
    var notices: seq<Notice>

    /** The defaults of FFmpegObject.h. */
    constructor ()
      ensures playback == Playback(false, 0.0, 0.0, 0.0, 0.0, 0, false)
      ensures options == Options(false, false, true)
      ensures code == TimecodeSettings(Timecode.ZeroSmpte, 0, false, "", 0, Timecode.DefaultCustomPattern, 0)
      ensures info == MediaText("", "", "", "", "")
      ensures !timecodeTimer && !metadataTimer && lastSeekTime == 0 && requests == [] && notices == []
    {
      playback := Playback(false, 0.0, 0.0, 0.0, 0.0, 0, false);
      options := Options(false, false, true);
      code := TimecodeSettings(Timecode.ZeroSmpte, 0, false, "", 0, Timecode.DefaultCustomPattern, 0);
      info := MediaText("", "", "", "", "");
      timecodeTimer := false;
      metadataTimer := false;
      lastSeekTime := 0;
      requests := [];
      notices := [];
    }

    // ------------------------------------------------------------ settings

    /** `setLoopEnabled`: only a change is taken and signalled. */
    method SetLoopEnabled(enabled: bool)
      modifies this`options, this`notices
      ensures options == old(options).(loop := enabled)
      ensures notices == old(notices) + (if old(options.loop) != enabled then [FlagChanged(Loop, enabled)] else [])
    {
      if options.loop != enabled {
        options := options.(loop := enabled);
        notices := notices + [FlagChanged(Loop, enabled)];
      }
    }

    /** `setOneBasedFrameNumbers`: only a change is taken and signalled. */
    method SetOneBasedFrameNumbers(oneBased: bool)
      modifies this`options, this`notices
      ensures options == old(options).(oneBased := oneBased)
      ensures notices == old(notices) + (if old(options.oneBased) != oneBased then [FlagChanged(OneBased, oneBased)] else [])
    {
      if options.oneBased != oneBased {
        options := options.(oneBased := oneBased);
        notices := notices + [FlagChanged(OneBased, oneBased)];
      }
    }

    /** `setKeepOpenEnabled`: only a change is taken and signalled. */
    method SetKeepOpenEnabled(enabled: bool)
      modifies this`options, this`notices
      ensures options == old(options).(keepOpen := enabled)
      ensures notices == old(notices) + (if old(options.keepOpen) != enabled then [FlagChanged(KeepOpen, enabled)] else [])
    {
      if options.keepOpen != enabled {
        options := options.(keepOpen := enabled);
        notices := notices + [FlagChanged(KeepOpen, enabled)];
      }
    }

    /** `setTimecodeFormat`: on a change the engine is told, the change signalled and the text refreshed. */
    method SetTimecodeFormat(format: int)
      modifies this`code, this`requests, this`notices
      ensures old(code.format) == format ==> code == old(code) && requests == old(requests) && notices == old(notices)
      ensures old(code.format) != format ==>
        && requests == old(requests) + [EngineSetTimecodeFormat(format)]
        && code == Refreshed(old(code).(format := format), playback)
        && notices == old(notices) + [NumberChanged(TimecodeFormat, format)] + TextNotice(old(code.text), code.text)
    {
      if code.format != format {
        code := code.(format := format);
        requests := requests + [EngineSetTimecodeFormat(format)];
        notices := notices + [NumberChanged(TimecodeFormat, format)];
        UpdateTimecode();
      }
    }

    /**
     * `setUseEmbeddedTimecode`: on a change it is signalled, and turning it
     * on fetches the embedded time code of the engine's current frame.
     */
    method SetUseEmbeddedTimecode(use: bool, current: Option<Timecode.DecodedFrame>)
      modifies this`code, this`notices
      ensures old(code.useEmbedded) == use ==> code == old(code) && notices == old(notices)
      ensures old(code.useEmbedded) != use && !use ==>
        code == old(code).(useEmbedded := false) && notices == old(notices) + [FlagChanged(UseEmbedded, false)]
      ensures old(code.useEmbedded) != use && use ==>
        code == Fetched(old(code).(useEmbedded := true), current)
        && notices == old(notices) + [FlagChanged(UseEmbedded, true)]
                   + (if code.embedded != old(code.embedded) then [TextChanged(EmbeddedTimecode, code.embedded)] else [])
    {
      if code.useEmbedded != use {
        code := code.(useEmbedded := use);
        notices := notices + [FlagChanged(UseEmbedded, use)];
        if use {
          FetchEmbeddedTimecode(current);
        }
      }
    }

    /** `setTimecodeOffset`: on a change it is signalled and the text refreshed. */
    method SetTimecodeOffset(offset: int)
      modifies this`code, this`notices
      ensures old(code.offset) == offset ==> code == old(code) && notices == old(notices)
      ensures old(code.offset) != offset ==>
        code == Refreshed(old(code).(offset := offset), playback)
        && notices == old(notices) + [NumberChanged(TimecodeOffset, offset)] + TextNotice(old(code.text), code.text)
    {
      if code.offset != offset {
        code := code.(offset := offset);
        notices := notices + [NumberChanged(TimecodeOffset, offset)];
        UpdateTimecode();
      }
    }

    /** `setCustomTimecodePattern`: on a change it is signalled and the text refreshed. */
    method SetCustomTimecodePattern(pattern: string)
      modifies this`code, this`notices
      ensures old(code.pattern) == pattern ==> code == old(code) && notices == old(notices)
      ensures old(code.pattern) != pattern ==>
        code == Refreshed(old(code).(pattern := pattern), playback)
        && notices == old(notices) + [TextChanged(CustomPattern, pattern)] + TextNotice(old(code.text), code.text)
    {
      if code.pattern != pattern {
        code := code.(pattern := pattern);
        notices := notices + [TextChanged(CustomPattern, pattern)];
        UpdateTimecode();
      }
    }

    /** `setTimecodeSource`: on a change it is signalled and the text refreshed. */
    method SetTimecodeSource(source: int)
      modifies this`code, this`notices
      ensures old(code.source) == source ==> code == old(code) && notices == old(notices)
      ensures old(code.source) != source ==>
        code == Refreshed(old(code).(source := source), playback)
        && notices == old(notices) + [NumberChanged(TimecodeSource, source)] + TextNotice(old(code.text), code.text)
    {
      if code.source != source {
        code := code.(source := source);
        notices := notices + [NumberChanged(TimecodeSource, source)];
        UpdateTimecode();
      }
    }

    // ---------------------------------------------------------- conversions

    /**
     * `frameToTimecode`: the zero time code without a positive rate; the
     * given format, or the object's own for a negative one; a custom format
     * with a non-empty pattern uses that pattern.
     */
    function FrameToTimecode(frame: int, format: int, customPattern: string): (t: string)
      reads this
      ensures playback.fps <= 0.0 ==> t == Timecode.ZeroSmpte
      ensures playback.fps > 0.0 && format == 3 ==> t == Timecode.FrameToTimecode(frame, playback.fps, Timecode.FramesOnly)
    {
      if playback.fps <= 0.0 then Timecode.ZeroSmpte
      else
        var f := Timecode.FormatOf(if format >= 0 then format else code.format);
        if f == Timecode.Custom && customPattern != "" then Timecode.FrameToCustom(frame, playback.fps, customPattern)
        else Timecode.FrameToTimecode(frame, playback.fps, f)
    }

    /** `timecodeToFrame`: 0 without a positive rate, otherwise read in the object's format. */
    function TimecodeToFrame(tc: string): (frame: int)
      reads this
      ensures playback.fps <= 0.0 ==> frame == 0
    {
      if playback.fps <= 0.0 then 0 else Timecode.TimecodeToFrame(tc, playback.fps, Timecode.FormatOf(code.format))
    }

    /** `displayFrameNumber`, the same rule as the mpv item's. */
    function DisplayFrameNumber(internalFrame: int): (d: int)
      reads this
      ensures InternalFrameNumber(d) == internalFrame
    {
      Mpv.DisplayFrame(options.oneBased, internalFrame)
    }

    /** `internalFrameNumber`. */
    function InternalFrameNumber(displayFrame: int): (i: int)
      reads this
      ensures Mpv.DisplayFrame(options.oneBased, i) == displayFrame
    {
      Mpv.InternalFrame(options.oneBased, displayFrame)
    }

    // ------------------------------------------------------------ transport

    /** `seekToPosition`: the time is recorded and the engine asked to seek. */
    method SeekToPosition(pos: real, now: int)
      modifies this`lastSeekTime, this`requests
      ensures lastSeekTime == now && requests == old(requests) + [EngineSeek(pos)]
    {
      lastSeekTime := now;
      requests := requests + [EngineSeek(pos)];
    }

    /** `resetEndReached`: a set flag is cleared and the change signalled; a clear one is left alone. */
    method ResetEndReached()
      modifies this`playback, this`notices
      ensures playback == old(playback).(endReached := false)
      ensures notices == old(notices) + (if old(playback.endReached) then [EndReachedChanged(false)] else [])
    {
      if playback.endReached {
        playback := playback.(endReached := false);
        notices := notices + [EndReachedChanged(false)];
      }
    }

    /**
     * `play`: at the end of a file with looping on, it first seeks to 0 and
     * clears the end flag; then the engine plays and the time code timer runs.
     */
    method Play(now: int)
      modifies this`playback, this`notices, this`lastSeekTime, this`requests, this`timecodeTimer
      ensures timecodeTimer
      ensures old(playback.endReached && options.loop) ==>
        && requests == old(requests) + [EngineSeek(0.0), EnginePlay]
        && playback == old(playback).(endReached := false) && lastSeekTime == now
        && notices == old(notices) + [EndReachedChanged(false)]
      ensures !old(playback.endReached && options.loop) ==>
        requests == old(requests) + [EnginePlay] && playback == old(playback)
        && lastSeekTime == old(lastSeekTime) && notices == old(notices)
    {
      if playback.endReached && options.loop {
        SeekToPosition(0.0, now);
        ResetEndReached();
      }
      requests := requests + [EnginePlay];
      timecodeTimer := true;
    }

    /** `pause`: the engine toggles its pause; the time code timer stops exactly when the engine is then paused. */
    method Pause(enginePaused: bool)
      modifies this`requests, this`timecodeTimer
      ensures requests == old(requests) + [EnginePause] && timecodeTimer == !enginePaused
    {
      requests := requests + [EnginePause];
      timecodeTimer := !enginePaused;
    }

    /** `playPause`: `play` while the mirrored pause flag is set, `pause` otherwise. */
    method PlayPause(now: int, enginePaused: bool)
      modifies this`playback, this`notices, this`lastSeekTime, this`requests, this`timecodeTimer
      ensures old(playback.paused) ==> requests == old(requests) + PlayRequests(old(playback), options) && timecodeTimer
      ensures !old(playback.paused) ==>
        requests == old(requests) + [EnginePause] && timecodeTimer == !enginePaused && playback == old(playback)
    {
      if playback.paused {
        Play(now);
      } else {
        Pause(enginePaused);
      }
    }

    /**
     * `handleEndOfVideo`: with looping on, a seek to 0 and the end flag
     * cleared; otherwise the end flag is set and the end signalled.
     */
    method HandleEndOfVideo(now: int)
      modifies this`playback, this`notices, this`lastSeekTime, this`requests
      ensures options.loop ==>
        && playback == old(playback).(endReached := false)
        && requests == old(requests) + [EngineSeek(0.0)] && lastSeekTime == now
        && notices == old(notices) + (if old(playback.endReached) then [EndReachedChanged(false)] else [])
      ensures !options.loop ==>
        && playback == old(playback).(endReached := true)
        && requests == old(requests) && lastSeekTime == old(lastSeekTime)
        && notices == old(notices) + [EndReached, EndReachedChanged(true)]
    {
      if options.loop {
        SeekToPosition(0.0, now);
        ResetEndReached();
      } else {
        playback := playback.(endReached := true);
        notices := notices + [EndReached, EndReachedChanged(true)];
      }
    }

    /** `seekToLastFrame`: only with a known frame count, a seek to the last frame. */
    method SeekToLastFrame()
      modifies this`requests
      ensures playback.frameCount > 0 ==> requests == old(requests) + [EngineSeekToFrame(playback.frameCount - 1)]
      ensures playback.frameCount <= 0 ==> requests == old(requests)
    {
      if playback.frameCount > 0 {
        var lastFrame := playback.frameCount - 1;
        requests := requests + [EngineSeekToFrame(lastFrame)];
      }
    }

    /** `seekToFirstFrame`. */
    method SeekToFirstFrame()
      modifies this`requests
      ensures requests == old(requests) + [EngineSeekToFrame(0)]
    {
      requests := requests + [EngineSeekToFrame(0)];
    }

    /**
     * `command`: an empty list is ignored; `loadfile` and `seek` need an
     * argument; `loadfile` turns a `file://` URL into a path and, when the
     * engine opens it (`openOk`), starts the metadata timer and signals the
     * load; `frame-step` and `frame-back-step` move one frame, not before 0,
     * and need a positive rate. Any other command is ignored. The URL is
     * read as on Windows when `windows`.
     */
    method Command(params: seq<Param>, now: int, openOk: bool, windows: bool)
      modifies this`lastSeekTime, this`requests, this`metadataTimer, this`notices
      ensures params == [] ==> requests == old(requests) && notices == old(notices) && metadataTimer == old(metadataTimer)
      ensures params != [] ==> requests == old(requests) + CommandRequests(params, playback, windows)
      ensures params != [] && params[0].text == "loadfile" && |params| > 1 && openOk ==>
        metadataTimer && notices == old(notices) + [FileLoaded]
      ensures !(params != [] && params[0].text == "loadfile" && |params| > 1 && openOk) ==>
        metadataTimer == old(metadataTimer) && notices == old(notices)
      ensures lastSeekTime == if params != [] && CommandRequests(params, playback, windows) != []
                                 && CommandRequests(params, playback, windows)[0].EngineSeek? then now else old(lastSeekTime)
    {
      if params == [] {
        return;
      }
      var cmd := params[0].text;
      if cmd == "loadfile" && |params| > 1 {
        var filename := params[1].text;
        if QtUrl.FileScheme <= filename {
          filename := QtUrl.ToLocalFile(filename[|QtUrl.FileScheme|..], windows);
        }
        requests := requests + [EngineOpen(filename)];
        if openOk {
          metadataTimer := true;
          notices := notices + [FileLoaded];
        }
      } else if cmd == "seek" && |params| > 1 {
        SeekToPosition(params[1].number, now);
      } else if cmd == "frame-step" {
        if playback.fps > 0.0 {
          SeekToPosition(StepTarget(playback.position, playback.fps), now);
        }
      } else if cmd == "frame-back-step" {
        if playback.fps > 0.0 {
          SeekToPosition(BackStepTarget(playback.position, playback.fps), now);
        }
      }
    }

    // ------------------------------------------------------- engine signals

    /** `onEngineFilenameChanged`. */
    method OnEngineFilenameChanged(filename: string)
      modifies this`info, this`notices
      ensures info == old(info).(filename := filename)
      ensures notices == old(notices) + (if old(info.filename) != filename then [TextChanged(Filename, filename)] else [])
    {
      if info.filename != filename {
        info := info.(filename := filename);
        notices := notices + [TextChanged(Filename, filename)];
      }
    }

    /**
     * `onEnginePositionChanged`: a position more than a millisecond away is
     * taken, the previous one kept as `lastPosition`, and the time code
     * follows.
     */
    method OnEnginePositionChanged(position: real)
      modifies this`playback, this`code, this`notices
      ensures playback == FollowPosition(old(playback), position)
      ensures !Moves(old(playback.position), position) ==> code == old(code) && notices == old(notices)
      ensures Moves(old(playback.position), position) ==>
        code == Refreshed(old(code), playback)
        && notices == old(notices) + [PositionChanged(position)] + TextNotice(old(code.text), code.text)
    {
      if AbsReal(playback.position - position) > Threshold {
        playback := playback.(lastPosition := playback.position, position := position);
        notices := notices + [PositionChanged(position)];
        UpdateTimecode();
      }
    }

    /** `onEngineDurationChanged`: taken when more than a millisecond away. */
    method OnEngineDurationChanged(duration: real)
      modifies this`playback, this`notices
      ensures Moves(old(playback.duration), duration) ==>
        playback == old(playback).(duration := duration) && notices == old(notices) + [DurationChanged(duration)]
      ensures !Moves(old(playback.duration), duration) ==> playback == old(playback) && notices == old(notices)
    {
      if AbsReal(playback.duration - duration) > Threshold {
        playback := playback.(duration := duration);
        notices := notices + [DurationChanged(duration)];
      }
    }

    /** `onEngineFpsChanged`: taken when more than 0.001 away. */
    method OnEngineFpsChanged(fps: real)
      modifies this`playback, this`notices
      ensures Moves(old(playback.fps), fps) ==>
        playback == old(playback).(fps := fps) && notices == old(notices) + [FpsChanged(fps)]
      ensures !Moves(old(playback.fps), fps) ==> playback == old(playback) && notices == old(notices)
    {
      if AbsReal(playback.fps - fps) > Threshold {
        playback := playback.(fps := fps);
        notices := notices + [FpsChanged(fps)];
      }
    }

    /** `onEngineFrameCountChanged`: only a change is taken. */
    method OnEngineFrameCountChanged(count: int)
      modifies this`playback, this`notices
      ensures playback == old(playback).(frameCount := count)
      ensures notices == old(notices) + (if old(playback.frameCount) != count then [FrameCountChanged(count)] else [])
    {
      if playback.frameCount != count {
        playback := playback.(frameCount := count);
        notices := notices + [FrameCountChanged(count)];
      }
    }

    /** `onEnginePlayingChanged`: passed on, nothing kept. */
    method OnEnginePlayingChanged(playing: bool)
      modifies this`notices
      ensures notices == old(notices) + [PlayingChanged(playing)]
    {
      notices := notices + [PlayingChanged(playing)];
    }

    /** `onEnginePauseChanged`: only a change is taken. */
    method OnEnginePauseChanged(paused: bool)
      modifies this`playback, this`notices
      ensures playback == old(playback).(paused := paused)
      ensures notices == old(notices) + (if old(playback.paused) != paused then [PauseChanged(paused)] else [])
    {
      if playback.paused != paused {
        playback := playback.(paused := paused);
        notices := notices + [PauseChanged(paused)];
      }
    }

    /** `onEngineVideoCodecChanged`, `...FormatChanged`, `...ResolutionChanged` and `onEngineMediaTitleChanged`: only a change is taken. */
    method OnEngineMediaTextChanged(property: TextProperty, text: string)
      requires property in {MediaTitle, VideoCodec, VideoFormat, VideoResolution}
      modifies this`info, this`notices
      ensures info == WithText(old(info), property, text)
      ensures notices == old(notices) + (if TextOf(old(info), property) != text then [TextChanged(property, text)] else [])
    {
      if TextOf(info, property) != text {
        info := WithText(info, property, text);
        notices := notices + [TextChanged(property, text)];
      }
    }

    /** `onEngineTimecodeChanged`: only a change is taken. */
    method OnEngineTimecodeChanged(timecode: string)
      modifies this`code, this`notices
      ensures code == old(code).(text := timecode)
      ensures notices == old(notices) + (if old(code.text) != timecode then [TextChanged(TimecodeText, timecode)] else [])
    {
      if code.text != timecode {
        code := code.(text := timecode);
        notices := notices + [TextChanged(TimecodeText, timecode)];
      }
    }

    /** `onEngineEndReached`. */
    method OnEngineEndReached(now: int)
      modifies this`playback, this`notices, this`lastSeekTime, this`requests
      ensures options.loop ==> playback == old(playback).(endReached := false) && requests == old(requests) + [EngineSeek(0.0)]
      ensures !options.loop ==> playback == old(playback).(endReached := true) && requests == old(requests)
    {
      HandleEndOfVideo(now);
    }

    // ------------------------------------------------------------ properties

    /** `setProperty` hands the name and the value to the engine. */
    method SetProperty(name: string, value: Engine.Variant)
      modifies this`requests
      ensures requests == old(requests) + [EngineSetProperty(name, value)]
    {
      requests := requests + [EngineSetProperty(name, value)];
    }

    /** `getProperty` asks the engine and returns its answer, `answer`, unchanged. */
    method GetProperty(name: string, answer: Engine.Variant) returns (v: Engine.Variant)
      modifies this`requests
      ensures v == answer
      ensures requests == old(requests) + [EngineGetProperty(name)]
    {
      requests := requests + [EngineGetProperty(name)];
      v := answer;
    }

    /**
     * The single-shot metadata timer's timeout: the timer stops, and its slot
     * `updateVideoMetadata` only signals.
     */
    method UpdateVideoMetadata()
      modifies this`metadataTimer, this`notices
      ensures !metadataTimer
      ensures notices == old(notices) + [VideoMetadataChanged]
    {
      metadataTimer := false;
      notices := notices + [VideoMetadataChanged];
    }

    // ------------------------------------------------------------ time code

    /** `updateTimecode` and `updateTimecodeFromPosition`: recalculated only with a positive rate. */
    method UpdateTimecode()
      modifies this`code, this`notices
      ensures code == Refreshed(old(code), playback)
      ensures notices == old(notices) + TextNotice(old(code.text), code.text)
    {
      if playback.fps > 0.0 {
        CalculateTimecode();
      }
    }

    /**
     * `calculateTimecode`: nothing without a positive rate; otherwise the
     * text is replaced, and the change signalled, when it differs.
     */
    method CalculateTimecode()
      modifies this`code, this`notices
      ensures code == Refreshed(old(code), playback)
      ensures playback.fps > 0.0 ==> code.text == ShownTimecode(old(code), playback.position, playback.fps)
      ensures notices == old(notices) + TextNotice(old(code.text), code.text)
    {
      if playback.fps <= 0.0 {
        return;
      }
      // the embedded text when in use, else the coded frame under the position
      var newTimecode := ShownTimecode(code, playback.position, playback.fps);
      ReplaceTimecode(newTimecode);
    }

    /** The last step of `calculateTimecode`: a different text replaces the shown one and is signalled. */
    method ReplaceTimecode(newTimecode: string)
      modifies this`code, this`notices
      ensures code == old(code).(text := newTimecode)
      ensures notices == old(notices) + TextNotice(old(code.text), newTimecode)
    {
      if code.text != newTimecode {
        code := code.(text := newTimecode);
        notices := notices + [TextChanged(TimecodeText, newTimecode)];
      }
    }

    /** `fetchEmbeddedTimecode`: a current frame that carries a time code replaces the embedded one. */
    method FetchEmbeddedTimecode(current: Option<Timecode.DecodedFrame>)
      modifies this`code, this`notices
      ensures code == Fetched(old(code), current)
      ensures notices == old(notices) + (if code.embedded != old(code.embedded) then [TextChanged(EmbeddedTimecode, code.embedded)] else [])
    {
      if current.Some? && Timecode.HasEmbeddedTimecode(current) {
        var embedded := Timecode.ExtractEmbeddedTimecode(current);
        if code.embedded != embedded {
          code := code.(embedded := embedded);
          notices := notices + [TextChanged(EmbeddedTimecode, embedded)];
        }
      }
    }
  }

  /** The time code settings after `updateTimecode`: the shown text when the rate is positive. */
  function Refreshed(c: TimecodeSettings, pb: Playback): (d: TimecodeSettings)
    ensures pb.fps <= 0.0 ==> d == c
    ensures d.format == c.format && d.useEmbedded == c.useEmbedded && d.embedded == c.embedded
    ensures d.offset == c.offset && d.pattern == c.pattern && d.source == c.source
  {
    if pb.fps > 0.0 then c.(text := ShownTimecode(c, pb.position, pb.fps)) else c
  }

  /** The time code settings after `fetchEmbeddedTimecode`. */
  function Fetched(c: TimecodeSettings, current: Option<Timecode.DecodedFrame>): (d: TimecodeSettings)
    ensures Timecode.HasEmbeddedTimecode(current) ==> d == c.(embedded := Timecode.ExtractEmbeddedTimecode(current))
    ensures !Timecode.HasEmbeddedTimecode(current) ==> d == c
  {
    if current.Some? && Timecode.HasEmbeddedTimecode(current) then c.(embedded := Timecode.ExtractEmbeddedTimecode(current))
    else c
  }

  /** The `timecodeChanged` signal of a recalculation: emitted exactly when the text changes. */
  function TextNotice(before: string, after: string): seq<Notice>
  {
    if before != after then [TextChanged(TimecodeText, after)] else []
  }

  /** The engine calls `play` makes. */
  function PlayRequests(pb: Playback, o: Options): (r: seq<EngineRequest>)
    ensures |r| >= 1 && r[|r| - 1] == EnginePlay
    ensures EngineSeek(0.0) in r <==> pb.endReached && o.loop
  {
    if pb.endReached && o.loop then [EngineSeek(0.0), EnginePlay] else [EnginePlay]
  }

  /** The engine calls a non-empty `command` list makes. */
  function CommandRequests(params: seq<Param>, pb: Playback, windows: bool): (r: seq<EngineRequest>)
    requires params != []
    ensures |r| <= 1
    ensures params[0].text == "loadfile" && |params| > 1 ==> r == [EngineOpen(LocalFile(params[1].text, windows))]
    ensures params[0].text == "seek" && |params| > 1 ==> r == [EngineSeek(params[1].number)]
    ensures params[0].text == "frame-step" && pb.fps > 0.0 ==> r == [EngineSeek(StepTarget(pb.position, pb.fps))]
    ensures params[0].text == "frame-back-step" && pb.fps > 0.0 ==> r == [EngineSeek(BackStepTarget(pb.position, pb.fps))]
    ensures params[0].text !in {"loadfile", "seek", "frame-step", "frame-back-step"} ==> r == []
    ensures (params[0].text == "frame-step" || params[0].text == "frame-back-step") && pb.fps <= 0.0 ==> r == []
  {
    var cmd := params[0].text;
    if cmd == "loadfile" && |params| > 1 then [EngineOpen(LocalFile(params[1].text, windows))]
    else if cmd == "seek" && |params| > 1 then [EngineSeek(params[1].number)]
    else if cmd == "frame-step" && pb.fps > 0.0 then [EngineSeek(StepTarget(pb.position, pb.fps))]
    else if cmd == "frame-back-step" && pb.fps > 0.0 then [EngineSeek(BackStepTarget(pb.position, pb.fps))]
    else []
  }

  /** One of the descriptive texts. */
  function TextOf(m: MediaText, property: TextProperty): string
  {
    match property
    case MediaTitle => m.title
    case VideoCodec => m.codec
    case VideoFormat => m.format
    case VideoResolution => m.resolution
    case _ => m.filename
  }

  /** The descriptive texts with one of them replaced. */
  function WithText(m: MediaText, property: TextProperty, text: string): (n: MediaText)
    requires property in {MediaTitle, VideoCodec, VideoFormat, VideoResolution}
    ensures TextOf(n, property) == text
    ensures forall p :: p in {MediaTitle, VideoCodec, VideoFormat, VideoResolution} && p != property ==> TextOf(n, p) == TextOf(m, p)
    ensures n.filename == m.filename
  {
    match property
    case MediaTitle => m.(title := text)
    case VideoCodec => m.(codec := text)
    case VideoFormat => m.(format := text)
    case VideoResolution => m.(resolution := text)
  }
}

/**
 * The earlier QML item over FFmpeg (src/core/ffmpegobject.cpp). It keeps its
 * own playing and paused flags and a position that a 100 ms timer advances
 * by 0.1 s, and its property setters ignore changes below a threshold
 * (0.1 s for the position, 0.01 for the volume).
 *
 * The transport is specified on `Player` values: `Played`, `PausedState`,
 * `Stopped`, `Positioned` and `Ticked` give the state after each operation,
 * and the methods of the class are proved to move their state by them. The
 * embedded `FFmpegDecoder` is not part of this model: whether it opens a file
 * and the duration it then reports are parameters of `LoadFile`.
 */
module LegacyFrontEnd {
  import opened CppMath

  /** The transport: the flags, the position and duration in seconds, and whether the position timer runs. */
  datatype Player = Player(playing: bool, paused: bool, position: real, duration: real, timerRunning: bool)

  /** The object's signals. */
  datatype Notice =
    | SourceChanged | PlayingChanged | PausedChanged | PositionChanged | DurationChanged
    | VolumeChanged | MutedChanged | VideoSizeChanged | VideoCodecChanged | PixelFormatChanged
    | FileLoaded | FileStarted | FileEnded | EndOfFile | Seeked | Error(message: string)

  /** One entry of a `command` list, as `toString()` and `toDouble()` read it. */
  datatype Param = Param(text: string, number: real)

  /** What `getProperty` returns. */
  datatype Value = NoValue | RealValue(r: real) | BoolValue(b: bool)

  /** The member defaults of ffmpegobject.h. */
  const Idle: Player := Player(false, false, 0.0, 0.0, false)

  /** `setPosition`'s threshold, the timer's step, `setVolume`'s threshold. */
  const PositionThreshold: real := 0.1
  const TimerStep: real := 0.1
  const VolumeThreshold: real := 0.01

  /** The frame `frameStep` assumes: 1/30 s. */
  const FrameLength: real := 1.0 / 30.0

  /** The position timer runs exactly while playing unpaused, and only a playing item is paused. */
  predicate Consistent(p: Player)
  {
    p.timerRunning == (p.playing && !p.paused) && (p.paused ==> p.playing)
  }

  /** `play`: nothing while playing (paused or not); otherwise playing, unpaused and timed. */
  function Played(p: Player): (q: Player)
    ensures p.playing ==> q == p
    ensures !p.playing ==> q.playing && !q.paused && q.timerRunning
    ensures q.position == p.position && q.duration == p.duration
    ensures Consistent(p) ==> Consistent(q)
  {
    if p.playing then p else p.(playing := true, paused := false, timerRunning := true)
  }

  /** `pause`: only playing and unpaused; then paused with the timer stopped. */
  function PausedState(p: Player): (q: Player)
    ensures !p.playing || p.paused ==> q == p
    ensures p.playing && !p.paused ==> q.playing && q.paused && !q.timerRunning
    ensures q.position == p.position && q.duration == p.duration
    ensures Consistent(p) ==> Consistent(q)
  {
    if !p.playing || p.paused then p else p.(paused := true, timerRunning := false)
  }

  /** `stop`: only while playing; then stopped, unpaused, untimed and back at 0. */
  function Stopped(p: Player): (q: Player)
    ensures !p.playing ==> q == p
    ensures p.playing ==> !q.playing && !q.paused && !q.timerRunning && q.position == 0.0
    ensures q.duration == p.duration
    ensures Consistent(p) ==> Consistent(q)
  {
    if !p.playing then p else p.(playing := false, paused := false, position := 0.0, timerRunning := false)
  }

  /** `setPosition`'s rule: a target less than 0.1 s away is ignored. */
  predicate TooClose(current: real, target: real)
  {
    AbsReal(current - target) < PositionThreshold
  }

  /** `setPosition`: the target is taken unless it is too close. */
  function Positioned(p: Player, target: real): (q: Player)
    ensures TooClose(p.position, target) ==> q == p
    ensures !TooClose(p.position, target) ==> q == p.(position := target)
  {
    if TooClose(p.position, target) then p else p.(position := target)
  }

  /**
   * `onPositionUpdate`: while playing unpaused the position moves 0.1 s on;
   * having reached the duration, the item stops (and is back at 0).
   */
  function Ticked(p: Player): (q: Player)
    ensures !(p.playing && !p.paused) ==> q == p
    ensures p.playing && !p.paused && p.position + TimerStep >= p.duration ==> q == Stopped(p)
    ensures p.playing && !p.paused && p.position + TimerStep < p.duration ==> q == p.(position := p.position + TimerStep)
    ensures Consistent(p) ==> Consistent(q)
  {
    if p.playing && !p.paused then
      var moved := p.(position := p.position + TimerStep);
      if moved.position >= moved.duration then Stopped(moved) else moved
    else p
  }

  /** The corrected `play`: it also resumes a paused item. */
  function PlayedCorrected(p: Player): (q: Player)
    ensures q.playing && !q.paused && q.timerRunning
    ensures q.position == p.position && q.duration == p.duration
    ensures p.playing && !p.paused && Consistent(p) ==> q == p
  {
    p.(playing := true, paused := false, timerRunning := true)
  }

  /** The corrected frame steps: an exact seek, with no threshold. */
  function Exactly(p: Player, target: real): (q: Player)
    ensures q.position == target && q.playing == p.playing && q.paused == p.paused
    ensures Consistent(p) ==> Consistent(q)
  {
    p.(position := target)
  }

  // ------------------------------------------------------------------ lemmas

  /** `play`, `pause` and `stop` are idempotent. */
  lemma TransportIdempotent(p: Player)
    ensures Played(Played(p)) == Played(p)
    ensures PausedState(PausedState(p)) == PausedState(p)
    ensures Stopped(Stopped(p)) == Stopped(p)
  {
  }

  /** A timer tick never leaves a playing item at or past its duration. */
  lemma TickStaysBeforeEnd(p: Player)
    requires Consistent(p)
    ensures Ticked(p).playing && p.timerRunning ==> Ticked(p).position < p.duration
    ensures p.timerRunning && !Ticked(p).playing ==> Ticked(p).position == 0.0
  {
  }

  /** A run of timer ticks. */
  function TickedTimes(p: Player, n: nat): (q: Player)
    ensures q.duration == p.duration
    decreases n
  {
    if n == 0 then p else TickedTimes(Ticked(p), n - 1)
  }

  /**
   * While the item keeps playing, `n` ticks move it exactly `n` steps of
   * 0.1 s; it never passes its duration.
   */
  lemma {:induction false} TicksAdvance(p: Player, n: nat)
    requires Consistent(p) && p.timerRunning
    ensures TickedTimes(p, n).playing ==> TickedTimes(p, n).position == p.position + n as real * TimerStep
    ensures TickedTimes(p, n).playing && n > 0 ==> TickedTimes(p, n).position < p.duration
    decreases n
  {
    if n > 0 {
      var q := Ticked(p);
      if q.playing {
        assert q.timerRunning;
        assert q.position == p.position + TimerStep;
        TicksAdvance(q, n - 1);
        if n > 1 {
          assert TickedTimes(p, n) == TickedTimes(q, n - 1);
        } else {
          assert TickedTimes(p, n) == q;
        }
      } else {
        StoppedStaysStopped(q, n - 1);
      }
    }
  }

  /** Stopped or paused, the timer moves nothing. */
  lemma {:induction false} StoppedStaysStopped(p: Player, n: nat)
    requires !(p.playing && !p.paused)
    ensures TickedTimes(p, n) == p
    decreases n
  {
    if n > 0 {
      StoppedStaysStopped(Ticked(p), n - 1);
    }
  }

  /** `m` ticks and then `n` more are `m + n` ticks. */
  lemma {:induction false} TickedTimesAdd(p: Player, m: nat, n: nat)
    ensures TickedTimes(TickedTimes(p, m), n) == TickedTimes(p, m + n)
    decreases m
  {
    if m > 0 {
      TickedTimesAdd(Ticked(p), m - 1, n);
    }
  }

  /** Once a run of ticks has stopped the item, every later tick leaves it as it is. */
  lemma EndIsFinal(p: Player, m: nat, n: nat)
    requires !TickedTimes(p, m).playing
    ensures TickedTimes(p, m + n) == TickedTimes(p, m)
  {
    TickedTimesAdd(p, m, n);
    StoppedStaysStopped(TickedTimes(p, m), n);
  }

  /**
   * As written, `play` cannot resume: after `play` and `pause` the item
   * stays paused on `play`, with the position timer stopped.
   */
  lemma PlayAfterPauseIsNoOp(p: Player)
    requires Consistent(p) && !p.playing
    ensures var held := PausedState(Played(p));
            Played(held) == held && held.paused && !held.timerRunning
  {
  }

  /** The corrected `play` resumes a paused item. */
  lemma PlayCorrectedResumes(p: Player)
    requires Consistent(p) && !p.playing
    ensures var resumed := PlayedCorrected(PausedState(Played(p)));
            resumed.playing && !resumed.paused && resumed.timerRunning && resumed.position == p.position
  {
  }

  /**
   * As written, `frameStep` never moves: one frame at 30 fps is less than
   * the 0.1 s `setPosition` ignores. `frameBackStep` does not move either
   * from a non-negative position.
   */
  lemma FrameStepIsNoOp(p: Player)
    ensures Positioned(p, p.position + FrameLength) == p
    ensures p.position >= 0.0 ==> Positioned(p, MaxReal(0.0, p.position - FrameLength)) == p
  {
  }

  /** `stepForward` does move: one second is past the threshold. */
  lemma StepForwardMoves(p: Player)
    ensures Positioned(p, p.position + 1.0).position == p.position + 1.0
  {
  }

  /** The corrected steps move by a frame, and a step back undoes a step from any position not before 0. */
  lemma FrameStepCorrectedMoves(p: Player)
    ensures Exactly(p, p.position + FrameLength).position == p.position + FrameLength
    ensures p.position >= 0.0 ==>
      var stepped := Exactly(p, p.position + FrameLength);
      Exactly(stepped, MaxReal(0.0, stepped.position - FrameLength)) == p
  {
  }

  // ------------------------------------------------------------------ the item

  class FFmpegObject {
    var state: Player
    var volume: real
    var muted: bool
    var source: string
    var notices: seq<Notice>

    ghost predicate Valid()
      reads this
    {
      Consistent(state)
    }

    constructor ()
      ensures Valid()
      ensures state == Idle && volume == 1.0 && !muted && source == "" && notices == []
    {
      state := Idle;
      volume := 1.0;
      muted := false;
      source := "";
      notices := [];
    }

    /** `setPosition`. */
    method SetPosition(position: real)
      requires Valid()
      modifies this`state, this`notices
      ensures Valid()
      ensures state == Positioned(old(state), position)
      ensures notices == old(notices) + (if TooClose(old(state.position), position) then [] else [PositionChanged])
    {
      if AbsReal(state.position - position) < PositionThreshold {
        return;
      }
      state := state.(position := position);
      notices := notices + [PositionChanged];
    }

    /** `setVolume`: a change below 0.01 is ignored. */
    method SetVolume(v: real)
      modifies this`volume, this`notices
      ensures AbsReal(old(volume) - v) < VolumeThreshold ==> volume == old(volume) && notices == old(notices)
      ensures AbsReal(old(volume) - v) >= VolumeThreshold ==> volume == v && notices == old(notices) + [VolumeChanged]
    {
      if AbsReal(volume - v) < VolumeThreshold {
        return;
      }
      volume := v;
      notices := notices + [VolumeChanged];
    }

    /** `setMuted`: only a change is taken. */
    method SetMuted(m: bool)
      modifies this`muted, this`notices
      ensures muted == m
      ensures notices == old(notices) + (if old(muted) == m then [] else [MutedChanged])
    {
      if muted == m {
        return;
      }
      muted := m;
      notices := notices + [MutedChanged];
    }

    /** `play`, as written: a paused item is not resumed. */
    method Play()
      requires Valid()
      modifies this`state, this`notices
      ensures Valid()
      ensures state == Played(old(state))
      ensures notices == old(notices) + (if old(state.playing) then [] else [PlayingChanged, PausedChanged, FileStarted])
    {
      if state.playing {
        return;
      }
      state := state.(playing := true, paused := false, timerRunning := true);
      notices := notices + [PlayingChanged, PausedChanged, FileStarted];
    }

    /** `play`, corrected: a paused item resumes; a running one is left alone. */
    method PlayCorrected()
      requires Valid()
      modifies this`state, this`notices
      ensures Valid()
      ensures state == PlayedCorrected(old(state))
      ensures notices == old(notices) + (if old(state.playing && !state.paused) then [] else [PlayingChanged, PausedChanged, FileStarted])
    {
      if state.playing && !state.paused {
        return;
      }
      state := state.(playing := true, paused := false, timerRunning := true);
      notices := notices + [PlayingChanged, PausedChanged, FileStarted];
    }

    /** `pause`. */
    method Pause()
      requires Valid()
      modifies this`state, this`notices
      ensures Valid()
      ensures state == PausedState(old(state))
      ensures notices == old(notices) + (if old(!state.playing || state.paused) then [] else [PausedChanged])
    {
      if !state.playing || state.paused {
        return;
      }
      state := state.(paused := true, timerRunning := false);
      notices := notices + [PausedChanged];
    }

    /** `stop`. */
    method Stop()
      requires Valid()
      modifies this`state, this`notices
      ensures Valid()
      ensures state == Stopped(old(state))
      ensures notices == old(notices) + StopNotices(old(state))
    {
      if !state.playing {
        return;
      }
      state := state.(playing := false, paused := false, position := 0.0, timerRunning := false);
      notices := notices + [PlayingChanged, PausedChanged, PositionChanged, FileEnded];
    }

    /** `seek`: `setPosition`, then `seeked` whether the position moved or not. */
    method Seek(position: real)
      requires Valid()
      modifies this`state, this`notices
      ensures Valid()
      ensures state == Positioned(old(state), position)
      ensures notices == old(notices) + (if TooClose(old(state.position), position) then [] else [PositionChanged]) + [Seeked]
    {
      SetPosition(position);
      notices := notices + [Seeked];
    }

    /** `stepForward`: one second on. */
    method StepForward()
      requires Valid()
      modifies this`state, this`notices
      ensures Valid()
      ensures state == old(state).(position := old(state.position) + 1.0)
      ensures notices == old(notices) + [PositionChanged, Seeked]
    {
      StepForwardMoves(state);
      Seek(state.position + 1.0);
    }

    /** `stepBackward`: one second back, not before 0. */
    method StepBackward()
      requires Valid()
      modifies this`state, this`notices
      ensures Valid()
      ensures state == Positioned(old(state), MaxReal(0.0, old(state.position) - 1.0))
      ensures notices == old(notices)
        + (if TooClose(old(state.position), MaxReal(0.0, old(state.position) - 1.0)) then [] else [PositionChanged])
        + [Seeked]
    {
      Seek(MaxReal(0.0, state.position - 1.0));
    }

    /** `frameStep`, as written: a seek by 1/30 s, which `setPosition` ignores. */
    method FrameStep()
      requires Valid()
      modifies this`state, this`notices
      ensures Valid()
      ensures state == old(state) && notices == old(notices) + [Seeked]
    {
      FrameStepIsNoOp(state);
      Seek(state.position + FrameLength);
    }

    /** `frameBackStep`, as written: from a non-negative position it does not move either. */
    method FrameBackStep()
      requires Valid()
      modifies this`state, this`notices
      ensures Valid()
      ensures state == Positioned(old(state), MaxReal(0.0, old(state.position) - FrameLength))
      ensures old(state.position) >= 0.0 ==> state == old(state) && notices == old(notices) + [Seeked]
    {
      FrameStepIsNoOp(state);
      Seek(MaxReal(0.0, state.position - FrameLength));
    }

    /** The corrected frame step: an exact seek one frame on. */
    method FrameStepCorrected()
      requires Valid()
      modifies this`state, this`notices
      ensures Valid()
      ensures state == Exactly(old(state), old(state.position) + FrameLength)
      ensures notices == old(notices) + [PositionChanged, Seeked]
    {
      state := state.(position := state.position + FrameLength);
      notices := notices + [PositionChanged, Seeked];
    }

    /** The corrected frame back-step: an exact seek one frame back, not before 0. */
    method FrameBackStepCorrected()
      requires Valid()
      modifies this`state, this`notices
      ensures Valid()
      ensures state == Exactly(old(state), MaxReal(0.0, old(state.position) - FrameLength))
      ensures notices == old(notices) + [PositionChanged, Seeked]
    {
      state := state.(position := MaxReal(0.0, state.position - FrameLength));
      notices := notices + [PositionChanged, Seeked];
    }

    /** `onPositionUpdate`: a tick; reaching the duration stops the item and signals the end of the file. */
    method OnPositionUpdate()
      requires Valid()
      modifies this`state, this`notices
      ensures Valid()
      ensures state == Ticked(old(state))
      ensures notices == old(notices) + TickNotices(old(state))
    {
      if state.playing && !state.paused {
        state := state.(position := state.position + TimerStep);
        if state.position >= state.duration {
          Stop();
          notices := notices + [EndOfFile];
        } else {
          notices := notices + [PositionChanged];
        }
      }
    }

    /**
     * `loadFile`: when the decoder opens the file (`openOk`) the duration it
     * reports is taken and the media information signalled; otherwise an
     * error names the file.
     */
    method LoadFile(file: string, openOk: bool, duration: real)
      requires Valid()
      modifies this`state, this`notices
      ensures Valid()
      ensures openOk ==> (state == old(state).(duration := duration)
        && notices == old(notices) + [DurationChanged, VideoSizeChanged, VideoCodecChanged, PixelFormatChanged, FileLoaded])
      ensures !openOk ==> state == old(state) && notices == old(notices) + [Error("Failed to load file: " + file)]
    {
      if openOk {
        state := state.(duration := duration);
        notices := notices + [DurationChanged, VideoSizeChanged, VideoCodecChanged, PixelFormatChanged, FileLoaded];
      } else {
        notices := notices + [Error("Failed to load file: " + file)];
      }
    }

    /** `setSource`: only a change is taken; a non-empty source is loaded. */
    method SetSource(s: string, openOk: bool, duration: real)
      requires Valid()
      modifies this`source, this`state, this`notices
      ensures Valid()
      ensures source == s
      ensures old(source) == s ==> state == old(state) && notices == old(notices)
      ensures old(source) != s && s == "" ==> state == old(state) && notices == old(notices) + [SourceChanged]
      ensures old(source) != s && s != "" && openOk ==> (state == old(state).(duration := duration)
        && notices == old(notices) + [SourceChanged, DurationChanged, VideoSizeChanged, VideoCodecChanged,
                                      PixelFormatChanged, FileLoaded])
      ensures old(source) != s && s != "" && !openOk ==> (state == old(state)
        && notices == old(notices) + [SourceChanged, Error("Failed to load file: " + s)])
    {
      if source == s {
        return;
      }
      source := s;
      notices := notices + [SourceChanged];
      if s != "" {
        LoadFile(s, openOk, duration);
      }
    }

    /** `setProperty`: "volume" and "mute" go to their setters; any other name is ignored. */
    method SetProperty(name: string, value: Param, flag: bool)
      modifies this`volume, this`muted, this`notices
      ensures name == "mute" ==> muted == flag
      ensures name != "volume" ==> volume == old(volume)
      ensures name != "mute" ==> muted == old(muted)
      ensures name == "volume" && AbsReal(old(volume) - value.number) < VolumeThreshold ==>
        volume == old(volume) && notices == old(notices)
      ensures name == "volume" && AbsReal(old(volume) - value.number) >= VolumeThreshold ==>
        volume == value.number && notices == old(notices) + [VolumeChanged]
      ensures name == "mute" ==> notices == old(notices) + (if old(muted) == flag then [] else [MutedChanged])
      ensures name != "volume" && name != "mute" ==> notices == old(notices)
    {
      if name == "volume" {
        SetVolume(value.number);
      } else if name == "mute" {
        SetMuted(flag);
      }
    }

    /** `getProperty`. */
    function GetProperty(name: string): (v: Value)
      reads this
      ensures name == "volume" ==> v == RealValue(volume)
      ensures name == "mute" ==> v == BoolValue(muted)
      ensures name == "duration" ==> v == RealValue(state.duration)
      ensures name == "time-pos" ==> v == RealValue(state.position)
      ensures name !in {"volume", "mute", "duration", "time-pos"} ==> v == NoValue
    {
      if name == "volume" then RealValue(volume)
      else if name == "mute" then BoolValue(muted)
      else if name == "duration" then RealValue(state.duration)
      else if name == "time-pos" then RealValue(state.position)
      else NoValue
    }

    /**
     * `command`: an empty list is ignored; "play", "pause" and "stop" are
     * dispatched, and "seek" when it has an argument. "play" is `play` as
     * written, so it does not resume a paused item.
     */
    method Command(params: seq<Param>)
      requires Valid()
      modifies this`state, this`notices
      ensures Valid()
      ensures state == Commanded(old(state), params)
      ensures notices == old(notices) + CommandNotices(old(state), params)
    {
      if params == [] {
        return;
      }
      var cmd := params[0].text;
      if cmd == "play" {
        Play();
      } else if cmd == "pause" {
        Pause();
      } else if cmd == "stop" {
        Stop();
      } else if cmd == "seek" && |params| > 1 {
        Seek(params[1].number);
      }
    }
  }

  /** The signals of `stop`. */
  function StopNotices(p: Player): (n: seq<Notice>)
    ensures n != [] <==> p.playing
    ensures n != [] ==> n[|n| - 1] == FileEnded && PlayingChanged in n
  {
    if p.playing then [PlayingChanged, PausedChanged, PositionChanged, FileEnded] else []
  }

  /** The signals of a timer tick. */
  function TickNotices(p: Player): (n: seq<Notice>)
    ensures !(p.playing && !p.paused) ==> n == []
    ensures p.playing && !p.paused && p.position + TimerStep >= p.duration ==> |n| > 0 && n[|n| - 1] == EndOfFile
  {
    if p.playing && !p.paused then
      if p.position + TimerStep >= p.duration then [PlayingChanged, PausedChanged, PositionChanged, FileEnded, EndOfFile]
      else [PositionChanged]
    else []
  }

  /** The state after a `command` list. */
  function Commanded(p: Player, params: seq<Param>): (q: Player)
    ensures params == [] ==> q == p
    ensures params != [] && params[0].text == "play" ==> q == Played(p)
    ensures params != [] && params[0].text == "pause" ==> q == PausedState(p)
    ensures params != [] && params[0].text == "stop" ==> q == Stopped(p)
    ensures params != [] && params[0].text == "seek" && |params| > 1 ==> q == Positioned(p, params[1].number)
    ensures params != [] && params[0].text == "seek" && |params| == 1 ==> q == p
    ensures params != [] && params[0].text !in {"play", "pause", "stop", "seek"} ==> q == p
    ensures Consistent(p) ==> Consistent(q)
  {
    if params == [] then p
    else if params[0].text == "play" then Played(p)
    else if params[0].text == "pause" then PausedState(p)
    else if params[0].text == "stop" then Stopped(p)
    else if params[0].text == "seek" && |params| > 1 then Positioned(p, params[1].number)
    else p
  }

  /** The signals of a `command` list: those of the member it dispatches to. */
  function CommandNotices(p: Player, params: seq<Param>): (n: seq<Notice>)
    ensures params == [] || params[0].text !in {"play", "pause", "stop", "seek"} ==> n == []
    ensures params != [] && params[0].text == "seek" ==> (n != [] <==> |params| > 1)
    ensures params != [] && params[0].text == "seek" && |params| > 1 ==> n[|n| - 1] == Seeked
  {
    if params == [] then []
    else if params[0].text == "play" then (if p.playing then [] else [PlayingChanged, PausedChanged, FileStarted])
    else if params[0].text == "pause" then (if !p.playing || p.paused then [] else [PausedChanged])
    else if params[0].text == "stop" then StopNotices(p)
    else if params[0].text == "seek" && |params| > 1 then
      (if TooClose(p.position, params[1].number) then [] else [PositionChanged]) + [Seeked]
    else []
  }

  /** "play", "pause" and "stop" signal exactly when they change the item. */
  lemma TransportCommandSignalsChange(p: Player, params: seq<Param>)
    requires params != [] && params[0].text in {"play", "pause", "stop"}
    ensures CommandNotices(p, params) == [] <==> Commanded(p, params) == p
  {
  }

  /** The state after a `command` list whose "play" is the corrected `play`. */
  function CommandedCorrected(p: Player, params: seq<Param>): (q: Player)
    ensures params != [] && params[0].text == "play" ==> q == PlayedCorrected(p)
    ensures params == [] || params[0].text != "play" ==> q == Commanded(p, params)
    ensures Consistent(p) ==> Consistent(q)
  {
    if params != [] && params[0].text == "play" then PlayedCorrected(p) else Commanded(p, params)
  }

  /**
   * As written, "play", "pause", "play" through `command` leaves a stopped
   * item paused, with its position timer stopped.
   */
  lemma CommandPlayPausePlay(p: Player)
    requires Consistent(p) && !p.playing
    ensures var play := [Param("play", 0.0)];
            var held := Commanded(Commanded(p, play), [Param("pause", 0.0)]);
            var again := Commanded(held, play);
            again == held && again.playing && again.paused && !again.timerRunning
  {
  }

  /** With the corrected `play`, the same commands leave the item playing again at its position. */
  lemma CommandCorrectedPlayPausePlay(p: Player)
    requires Consistent(p) && !p.playing
    ensures var play := [Param("play", 0.0)];
            var held := CommandedCorrected(CommandedCorrected(p, play), [Param("pause", 0.0)]);
            var again := CommandedCorrected(held, play);
            again.playing && !again.paused && again.timerRunning && again.position == p.position
  {
  }
}

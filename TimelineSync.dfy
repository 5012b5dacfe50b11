/**
 * The timeline synchroniser (src/timelinesync.cpp): it mirrors the mpv
 * player's position, duration and play state as frame numbers for the UI,
 * clamps seeks, holds position updates back while the user drags the
 * timeline or a seek is settling, and moves to a safe frame at the end.
 *
 * The player is outside the model: what the synchroniser reads from it
 * arrives as method parameters, and what it asks of it (pause, seek) is
 * appended to `requests`. The single-shot seek timer is the explicit call
 * `CompleteSeek`; the periodic sync timer is `HandleSyncTimer`.
 */
module TimelineSync {
  import opened CppMath
  import opened QtText
  import opened Timecode
  import opened TimecodeLemmas

  /** A request the synchroniser sends to the player. */
  datatype PlayerRequest = Pause | Seek(position: real, exact: bool)

  /** What `calculateTotalFrames` reads from the player, in order of priority. */
  datatype FrameCountSources = FrameCountSources(estimated: Option<int>, counted: int)

  /** What `connectMpv` and `forceUpdate` read from the player. */
  datatype PlayerView = PlayerView(
    position: real, duration: real, paused: bool,
    estimatedFps: Option<real>, sources: FrameCountSources)

  // ------------------------------------------------------- pure conversions

  /** `qRound(pos * fps)`. */
  function NearestFrame(pos: real, fps: real): int
  {
    Round(pos * fps)
  }

  /**
   * `calculateFrameFromPosition`: the nearest frame, clamped to the frames
   * of the video (0 when there are none).
   */
  function FrameFromPosition(pos: real, fps: real, totalFrames: int): (frame: int)
    ensures fps <= 0.0 ==> frame == 0
    ensures 0 <= frame <= Max(0, totalFrames - 1)
    ensures fps > 0.0 && 0 <= NearestFrame(pos, fps) < totalFrames ==> frame == NearestFrame(pos, fps)
  {
    if fps <= 0.0 then 0 else Bound(0, NearestFrame(pos, fps), totalFrames - 1)
  }

  /** `calculatePositionFromFrame`: the start time of a frame. */
  function PositionFromFrame(frame: int, fps: real): (pos: real)
    ensures fps <= 0.0 ==> pos == 0.0
    ensures fps > 0.0 ==> pos * fps == frame as real
  {
    if fps <= 0.0 then 0.0 else frame as real / fps
  }

  /** A frame of the video is found again from its start time. */
  lemma FramePositionRoundTrip(frame: int, fps: real, totalFrames: int)
    requires fps > 0.0 && 0 <= frame < totalFrames
    ensures FrameFromPosition(PositionFromFrame(frame, fps), fps, totalFrames) == frame
  {
    var pos := PositionFromFrame(frame, fps);
    RoundOfExact(pos, fps, frame);
  }

  lemma RoundOfExact(pos: real, fps: real, frame: int)
    requires pos * fps == frame as real
    ensures NearestFrame(pos, fps) == frame
  {
  }

  /**
   * `TimelineSync::frameToTimecode`: "HH:MM:SS:FF" from whole seconds and
   * `frame % int(fps)`.
   */
  function SyncFrameToTimecode(frame: int, fps: real): (t: string)
    ensures fps < 1.0 ==> t == ZeroSmpte
  {
    if fps < 1.0 then ZeroSmpte
    else SyncFields(frame, fps, frame as real / fps)
  }

  function SyncFields(frame: int, fps: real, seconds: real): string
    requires fps >= 1.0
  {
    var hours := Trunc(seconds / 3600.0);
    var minutes := Trunc((seconds - (hours * 3600) as real) / 60.0);
    SmpteText(hours, minutes, CMod(Trunc(seconds), 60), ':', CMod(frame, Trunc(fps)))
  }

  /** `(\d{2}):(\d{2}):(\d{2}):(\d{2})` matches the eleven characters at `i`. */
  predicate ColonSmpteAt(s: string, i: nat)
    requires i + 11 <= |s|
  {
    SmpteAt(s, i) && s[i + 8] == ':'
  }

  /** The leftmost match of that expression at or after `from`. */
  function FindColonSmpte(s: string, from: nat): (r: Option<nat>)
    ensures r.Some? ==> from <= r.value && r.value + 11 <= |s| && ColonSmpteAt(s, r.value)
    ensures r.Some? ==> forall j :: from <= j < r.value ==> !ColonSmpteAt(s, j)
    ensures r.None? ==> forall j :: from <= j && j + 11 <= |s| ==> !ColonSmpteAt(s, j)
    decreases |s| - from
  {
    if from + 11 > |s| then None
    else if ColonSmpteAt(s, from) then Some(from)
    else FindColonSmpte(s, from + 1)
  }

  /**
   * `TimelineSync::timecodeToFrame`: `int(totalSeconds * fps + frames)`,
   * clamped to the frames of the video.
   */
  function SyncTimecodeToFrame(timecode: string, fps: real, totalFrames: int): (frame: int)
    ensures fps <= 0.0 || FindColonSmpte(timecode, 0).None? ==> frame == 0
    ensures 0 <= frame <= Max(0, totalFrames - 1)
  {
    if fps <= 0.0 then 0
    else match FindColonSmpte(timecode, 0)
      case None => 0
      case Some(i) => Bound(0, ScaledClock(SmpteGroups(timecode, i), fps), totalFrames - 1)
  }

  /** `int(totalSeconds * fps + frames)`. */
  function ScaledClock(c: Clock, fps: real): int
  {
    Trunc((c.hours * 3600 + c.minutes * 60 + c.seconds) as real * fps + c.frames as real)
  }

  /**
   * At a whole frame rate, the synchroniser's own time code of a frame of
   * the video (below 100 hours) reads back as that frame.
   */
  lemma SyncTimecodeRoundTrip(frame: int, n: int, totalFrames: int)
    requires 1 <= n <= 100 && 0 <= frame < totalFrames && frame < 360000 * n
    ensures SyncTimecodeToFrame(SyncFrameToTimecode(frame, n as real), n as real, totalFrames) == frame
  {
    var s := frame / n;
    DivBelow(frame, n, 360000);
    WholeSeconds(frame, n);
    var c := SecondsClock(frame, n, frame as real / n as real);
    var t := SmpteText(c.hours, c.minutes, c.seconds, ':', c.frames);
    assert SyncFields(frame, n as real, frame as real / n as real) == t;
    SmpteTextReadsColon(c);
    ScaledClockOfSplit(c, n, frame);
  }

  /** The split `SyncFields` makes of `seconds`, at a whole rate `n`. */
  function SecondsClock(frame: int, n: int, seconds: real): (c: Clock)
    requires 1 <= n <= 100 && frame >= 0 && frame < 360000 * n
    requires (frame / n) as real <= seconds < (frame / n) as real + 1.0
    ensures c.hours == (frame / n) / 3600 && c.minutes == ((frame / n) % 3600) / 60
    ensures c.seconds == (frame / n) % 60 && c.frames == frame % n
    ensures 0 <= c.hours <= 99 && 0 <= c.minutes < 60 && 0 <= c.seconds < 60 && 0 <= c.frames < n
  {
    var s := frame / n;
    DivBelow(frame, n, 360000);
    DivBelow(s, 3600, 100);
    HoursField(seconds, s);
    var hours := Trunc(seconds / 3600.0);
    MinutesField(seconds, s, hours);
    var rest := seconds - (hours * 3600) as real;
    WholePart(seconds, s);
    WholePart(n as real, n);
    Clock(hours, Trunc(rest / 60.0), CMod(Trunc(seconds), 60), CMod(frame, Trunc(n as real)))
  }

  lemma SmpteTextReadsColon(c: Clock)
    requires 0 <= c.hours <= 99 && 0 <= c.minutes <= 99 && 0 <= c.seconds <= 99 && 0 <= c.frames <= 99
    ensures var t := SmpteText(c.hours, c.minutes, c.seconds, ':', c.frames);
            FindColonSmpte(t, 0) == Some(0) && SmpteGroups(t, 0) == c
  {
    SmpteTextReads(c.hours, c.minutes, c.seconds, ':', c.frames);
  }

  lemma ScaledClockOfSplit(c: Clock, n: int, frame: int)
    requires n >= 1 && frame >= 0
    requires c.hours == (frame / n) / 3600 && c.minutes == ((frame / n) % 3600) / 60
    requires c.seconds == (frame / n) % 60 && c.frames == frame % n
    ensures ScaledClock(c, n as real) == frame
  {
    var s := frame / n;
    ClockOfSeconds(s);
    ScaledClockValue(c, n, s, frame);
  }

  lemma ScaledClockValue(c: Clock, n: int, s: int, frame: int)
    requires c.hours * 3600 + c.minutes * 60 + c.seconds == s && s * n + c.frames == frame
    ensures ScaledClock(c, n as real) == frame
  {
    assert s as real * n as real == (s * n) as real;
  }

  /**
   * `calculateTotalFrames`' choice: the player's estimate when positive,
   * else its counted frames when positive, else `ceil(duration * fps)`.
   */
  function ChooseFrameCount(sources: FrameCountSources, duration: real, fps: real): (frames: int)
    ensures duration > 0.0 && fps > 0.0 ==> frames > 0
    ensures sources.estimated.Some? && sources.estimated.value > 0 ==> frames == sources.estimated.value
    ensures (sources.estimated.None? || sources.estimated.value <= 0) && sources.counted > 0
            ==> frames == sources.counted
    ensures (sources.estimated.None? || sources.estimated.value <= 0) && sources.counted <= 0
            ==> frames == Ceil(duration * fps)
  {
    if sources.estimated.Some? && sources.estimated.value > 0 then sources.estimated.value
    else if sources.counted > 0 then sources.counted
    else CeilFrames(duration, fps)
  }

  /** `std::ceil(duration * fps)`: positive for a positive duration and rate. */
  function CeilFrames(duration: real, fps: real): (frames: int)
    ensures duration > 0.0 && fps > 0.0 ==> frames > 0
    ensures frames == Ceil(duration * fps)
  {
    if duration > 0.0 && fps > 0.0 then
      assert duration * fps > 0.0;
      Ceil(duration * fps)
    else Ceil(duration * fps)
  }

  /** The player's `estimated-vf-fps` when it is positive, else `fallback`. */
  function RateOr(estimated: Option<real>, fallback: real): (fps: real)
    ensures fallback > 0.0 ==> fps > 0.0
    ensures estimated.Some? && estimated.value > 0.0 ==> fps == estimated.value
    ensures !(estimated.Some? && estimated.value > 0.0) ==> fps == fallback
  {
    if estimated.Some? && estimated.value > 0.0 then estimated.value else fallback
  }

  /** The frame count after `calculateTotalFrames` for a player that is present. */
  function FramesAfterLoad(previous: int, sources: FrameCountSources, duration: real, fps: real): int
  {
    if duration <= 0.0 || fps <= 0.0 then previous else ChooseFrameCount(sources, duration, fps)
  }

  /** The current frame after `updateFrameInfo`. */
  function FrameAfterLoad(previous: int, position: real, duration: real, fps: real, totalFrames: int): int
  {
    if duration <= 0.0 || fps <= 0.0 then previous else FrameFromPosition(position, fps, totalFrames)
  }

  // ------------------------------------------------------------ the class

  class TimelineSync {
    var hasPlayer: bool
    var currentFrame: int
    var totalFrames: int
    var fps: real
    var isPlaying: bool
    var position: real
    var duration: real
    var isDragging: bool
    var seekInProgress: bool
    var updatePending: bool
    var autoSync: bool
    /** The function-local static counter of `handleSyncTimer`. */
    var frameCountCheck: int
    var syncTimerRunning: bool
    var seekTimerArmed: bool
    var requests: seq<PlayerRequest>

    /** What every operation except the drag hand-over keeps. */
    ghost predicate Consistent()
      reads this
    {
      totalFrames >= 0 && currentFrame >= 0 && fps > 0.0 && frameCountCheck >= 0
      && seekInProgress == seekTimerArmed
      && (syncTimerRunning ==> hasPlayer)
    }

    /** Automatic sync is off exactly while the user drags the timeline. */
    ghost predicate Valid()
      reads this
    {
      Consistent() && autoSync == !isDragging
    }

    constructor ()
      ensures Valid() && !hasPlayer
      ensures currentFrame == 0 && totalFrames == 0 && fps == 24.0 && !isPlaying
      ensures position == 0.0 && duration == 0.0 && !isDragging && !seekInProgress
      ensures !updatePending && autoSync && frameCountCheck == 0
      ensures !syncTimerRunning && !seekTimerArmed && requests == []
    {
      hasPlayer := false;
      currentFrame := 0;
      totalFrames := 0;
      fps := 24.0;
      isPlaying := false;
      position := 0.0;
      duration := 0.0;
      isDragging := false;
      seekInProgress := false;
      updatePending := false;
      autoSync := true;
      frameCountCheck := 0;
      syncTimerRunning := false;
      seekTimerArmed := false;
      requests := [];
    }

    /** `calculateTotalFrames`. */
    method CalculateTotalFrames(sources: FrameCountSources)
      requires Consistent()
      modifies this`totalFrames
      ensures Consistent()
      ensures totalFrames == if !hasPlayer || duration <= 0.0 || fps <= 0.0 then old(totalFrames)
                             else ChooseFrameCount(sources, duration, fps)
    {
      if !hasPlayer || duration <= 0.0 || fps <= 0.0 {
        return;
      }
      totalFrames := ChooseFrameCount(sources, duration, fps);
    }

    /** `updateFrameInfo`. */
    method UpdateFrameInfo()
      requires Consistent()
      modifies this`currentFrame
      ensures Consistent()
      ensures currentFrame == if duration <= 0.0 || fps <= 0.0 then old(currentFrame)
                              else FrameFromPosition(position, fps, totalFrames)
    {
      if duration <= 0.0 || fps <= 0.0 {
        return;
      }
      currentFrame := FrameFromPosition(position, fps, totalFrames);
    }

    /** `connectMpv`: a null player changes nothing. */
    method ConnectMpv(player: Option<PlayerView>)
      requires Valid()
      modifies this
      ensures Valid()
      ensures player.None? ==> unchanged(this)
      ensures player.Some? ==> hasPlayer && syncTimerRunning
      ensures player.Some? ==> position == player.value.position && duration == player.value.duration
      ensures player.Some? ==> isPlaying == !player.value.paused
      ensures player.Some? ==> fps == RateOr(player.value.estimatedFps, 24.0)
      ensures player.Some? ==> totalFrames == FramesAfterLoad(old(totalFrames), player.value.sources, duration, fps)
      ensures player.Some? ==> currentFrame == FrameAfterLoad(old(currentFrame), position, duration, fps, totalFrames)
      ensures isDragging == old(isDragging) && autoSync == old(autoSync)
      ensures seekInProgress == old(seekInProgress) && seekTimerArmed == old(seekTimerArmed)
      ensures updatePending == old(updatePending) && frameCountCheck == old(frameCountCheck)
      ensures requests == old(requests)
    {
      if player.None? {
        return;
      }
      var v := player.value;
      Adopt(v);
      CalculateTotalFrames(v.sources);
      UpdateFrameInfo();
      syncTimerRunning := true;
    }

    /** The part of `connectMpv` that copies the player's properties. */
    method Adopt(v: PlayerView)
      requires Valid()
      modifies this`hasPlayer, this`position, this`duration, this`isPlaying, this`fps
      ensures Valid() && hasPlayer
      ensures position == v.position && duration == v.duration && isPlaying == !v.paused
      ensures fps == RateOr(v.estimatedFps, 24.0)
    {
      hasPlayer := true;
      position := v.position;
      duration := v.duration;
      isPlaying := !v.paused;
      fps := RateOr(v.estimatedFps, 24.0);
    }

    /**
     * `seekToPosition`: without a player or a duration nothing happens;
     * otherwise the target is clamped to `[0, duration - 0.1]`, a playing
     * player is paused, the seek is requested, the position and frame are
     * shown at once and the seek is marked in progress until `CompleteSeek`.
     */
    method SeekToPosition(pos: real, exact: bool)
      requires Consistent()
      modifies this`seekInProgress, this`requests, this`position, this`currentFrame, this`seekTimerArmed
      ensures Consistent()
      ensures !hasPlayer || duration <= 0.0 ==>
        position == old(position) && currentFrame == old(currentFrame)
        && seekInProgress == old(seekInProgress) && seekTimerArmed == old(seekTimerArmed)
        && requests == old(requests)
      ensures hasPlayer && duration > 0.0 ==>
        var target := BoundReal(0.0, pos, duration - 0.1);
        && seekInProgress && seekTimerArmed && position == target
        && 0.0 <= position && (duration >= 0.1 ==> position <= duration - 0.1)
        && requests == old(requests) + (if isPlaying then [Pause] else []) + [Seek(target, exact)]
        && currentFrame == Bound(0, NearestFrame(target, fps), totalFrames - 1)
    {
      if !hasPlayer || duration <= 0.0 {
        return;
      }
      var target := BoundReal(0.0, pos, duration - 0.1);
      seekInProgress := true;
      if isPlaying {
        requests := requests + [Pause];
      }
      requests := requests + [Seek(target, exact)];
      position := target;
      if fps > 0.0 {
        currentFrame := Bound(0, NearestFrame(target, fps), totalFrames - 1);
      }
      seekTimerArmed := true;
    }

    /**
     * `seekToFrame`: the frame is clamped to the video and its start time is
     * sought; when that time is inside the seekable range the timeline lands
     * on exactly that frame.
     */
    method SeekToFrame(frame: int, exact: bool)
      requires Consistent()
      modifies this`seekInProgress, this`requests, this`position, this`currentFrame, this`seekTimerArmed
      ensures Consistent()
      ensures !hasPlayer || duration <= 0.0 ==>
        position == old(position) && currentFrame == old(currentFrame)
        && seekInProgress == old(seekInProgress) && requests == old(requests)
      ensures hasPlayer && duration > 0.0 ==>
        var target := BoundReal(0.0, PositionFromFrame(Bound(0, frame, totalFrames - 1), fps), duration - 0.1);
        && seekInProgress && position == target
        && requests == old(requests) + (if isPlaying then [Pause] else []) + [Seek(target, exact)]
        && currentFrame == Bound(0, NearestFrame(target, fps), totalFrames - 1)
      ensures (hasPlayer && duration > 0.0 && 0 <= frame < totalFrames
               && PositionFromFrame(frame, fps) <= duration - 0.1) ==> currentFrame == frame
    {
      if !hasPlayer || duration <= 0.0 {
        return;
      }
      var f := Bound(0, frame, totalFrames - 1);
      var target := PositionFromFrame(f, fps);
      if 0 <= frame < totalFrames && target <= duration - 0.1 {
        RoundOfExact(target, fps, frame);
      }
      SeekToPosition(target, exact);
    }

    /** `beginDragging`: automatic sync stops while the user drags. */
    method BeginDragging()
      requires Consistent()
      modifies this`isDragging, this`autoSync
      ensures Valid() && isDragging && !autoSync
    {
      isDragging := true;
      autoSync := false;
    }

    /**
     * `endDragging`: the drag ends with an exact seek to the frame shown,
     * then automatic sync resumes.
     */
    method EndDragging()
      requires Consistent()
      modifies this
      ensures Valid() && !isDragging && autoSync
      ensures hasPlayer == old(hasPlayer) && totalFrames == old(totalFrames) && fps == old(fps)
      ensures duration == old(duration) && isPlaying == old(isPlaying)
      ensures !hasPlayer || duration <= 0.0 ==>
        position == old(position) && currentFrame == old(currentFrame) && requests == old(requests)
      ensures hasPlayer && duration > 0.0 ==>
        var target := BoundReal(0.0, PositionFromFrame(Bound(0, old(currentFrame), totalFrames - 1), fps), duration - 0.1);
        && seekInProgress && position == target
        && requests == old(requests) + (if isPlaying then [Pause] else []) + [Seek(target, true)]
        && currentFrame == Bound(0, NearestFrame(target, fps), totalFrames - 1)
      ensures (hasPlayer && duration > 0.0 && old(currentFrame) < totalFrames
               && PositionFromFrame(old(currentFrame), fps) <= duration - 0.1) ==> currentFrame == old(currentFrame)
    {
      isDragging := false;
      SeekToFrame(currentFrame, true);
      autoSync := true;
    }

    /** `setIsDragging`: only a change starts or ends a drag. */
    method SetIsDragging(dragging: bool)
      requires Valid()
      modifies this
      ensures Valid() && isDragging == dragging
      ensures dragging == old(isDragging) ==> unchanged(this)
      ensures dragging && !old(isDragging) ==>
        && !autoSync && position == old(position) && currentFrame == old(currentFrame) && requests == old(requests)
        && hasPlayer == old(hasPlayer) && totalFrames == old(totalFrames) && fps == old(fps)
        && duration == old(duration) && isPlaying == old(isPlaying) && seekInProgress == old(seekInProgress)
      ensures !dragging && old(isDragging) ==>
        && autoSync && hasPlayer == old(hasPlayer) && totalFrames == old(totalFrames) && fps == old(fps)
        && duration == old(duration) && isPlaying == old(isPlaying)
      ensures !dragging && old(isDragging) && (!hasPlayer || duration <= 0.0) ==>
        position == old(position) && currentFrame == old(currentFrame) && requests == old(requests)
      ensures !dragging && old(isDragging) && hasPlayer && duration > 0.0 ==>
        var target := BoundReal(0.0, PositionFromFrame(Bound(0, old(currentFrame), totalFrames - 1), fps), duration - 0.1);
        && seekInProgress && position == target
        && requests == old(requests) + (if isPlaying then [Pause] else []) + [Seek(target, true)]
        && currentFrame == Bound(0, NearestFrame(target, fps), totalFrames - 1)
      ensures (!dragging && old(isDragging) && hasPlayer && duration > 0.0 && old(currentFrame) < totalFrames
               && PositionFromFrame(old(currentFrame), fps) <= duration - 0.1) ==> currentFrame == old(currentFrame)
    {
      if isDragging != dragging {
        isDragging := dragging;
        if dragging {
          BeginDragging();
        } else {
          EndDragging();
        }
      }
    }

    /** `forceUpdate`: re-reads the player and recomputes the frames. */
    method ForceUpdate(v: PlayerView)
      requires Valid()
      modifies this`position, this`duration, this`fps, this`totalFrames, this`currentFrame
      ensures Valid()
      ensures !old(hasPlayer) ==> (position == old(position) && duration == old(duration)
              && fps == old(fps) && totalFrames == old(totalFrames) && currentFrame == old(currentFrame))
      ensures hasPlayer ==>
        && position == v.position && duration == v.duration
        && fps == (if v.estimatedFps.Some? && v.estimatedFps.value > 0.0 then v.estimatedFps.value else old(fps))
        && totalFrames == (if v.duration <= 0.0 then old(totalFrames) else ChooseFrameCount(v.sources, v.duration, fps))
        && currentFrame == (if v.duration <= 0.0 then old(currentFrame)
                            else FrameFromPosition(v.position, fps, totalFrames))
    {
      if !hasPlayer {
        return;
      }
      position := v.position;
      duration := v.duration;
      if v.estimatedFps.Some? && v.estimatedFps.value > 0.0 {
        fps := v.estimatedFps.value;
      }
      CalculateTotalFrames(v.sources);
      UpdateFrameInfo();
    }

    /**
     * `onMpvPositionChanged`: ignored while dragging or with automatic sync
     * off; otherwise a change above 10^-5 s is taken and the frame follows.
     */
    method OnMpvPositionChanged(pos: real)
      requires Valid()
      modifies this`position, this`currentFrame
      ensures Valid()
      ensures isDragging || !autoSync || AbsReal(old(position) - pos) <= 0.00001 ==>
        position == old(position) && currentFrame == old(currentFrame)
      ensures !isDragging && autoSync && AbsReal(old(position) - pos) > 0.00001 ==>
        position == pos
        && currentFrame == (if duration <= 0.0 then old(currentFrame) else FrameFromPosition(pos, fps, totalFrames))
    {
      if isDragging || !autoSync {
        return;
      }
      if AbsReal(position - pos) > 0.00001 {
        position := pos;
        UpdateFrameInfo();
      }
    }

    /** `onMpvDurationChanged`: a new duration recomputes the frame count. */
    method OnMpvDurationChanged(d: real, sources: FrameCountSources)
      requires Valid()
      modifies this`duration, this`totalFrames
      ensures Valid() && duration == d
      ensures totalFrames == if d == old(duration) || !hasPlayer || d <= 0.0 then old(totalFrames)
                             else ChooseFrameCount(sources, d, fps)
    {
      if duration != d {
        duration := d;
        CalculateTotalFrames(sources);
      }
    }

    /** `onMpvPlayingChanged`. */
    method OnMpvPlayingChanged(playing: bool)
      modifies this`isPlaying
      ensures isPlaying == playing
    {
      if isPlaying != playing {
        isPlaying := playing;
      }
    }

    /** `onMpvPauseChanged`. */
    method OnMpvPauseChanged(paused: bool)
      modifies this`isPlaying
      ensures isPlaying == !paused
    {
      if isPlaying != !paused {
        isPlaying := !paused;
      }
    }

    /**
     * `handleSyncTimer`: nothing while there is no player, while dragging or
     * while a seek settles; otherwise it follows the player's `time-pos`
     * (changes above 0.01 s) and `pause`, and every 60th tick with a loaded
     * video recomputes the frame count.
     */
    method HandleSyncTimer(timePos: Option<real>, paused: Option<bool>, playerDuration: real,
                           sources: FrameCountSources)
      requires Valid()
      modifies this`position, this`currentFrame, this`isPlaying, this`frameCountCheck, this`totalFrames
      ensures Valid()
      ensures !hasPlayer || isDragging || seekInProgress || timePos.None? ==>
        position == old(position) && currentFrame == old(currentFrame) && isPlaying == old(isPlaying)
        && frameCountCheck == old(frameCountCheck) && totalFrames == old(totalFrames)
      ensures hasPlayer && !isDragging && !seekInProgress && timePos.Some? ==>
        && (AbsReal(timePos.value - old(position)) > 0.01 ==>
              position == timePos.value && currentFrame == FrameFromPosition(timePos.value, fps, old(totalFrames)))
        && (AbsReal(timePos.value - old(position)) <= 0.01 ==>
              position == old(position) && currentFrame == old(currentFrame))
        && isPlaying == (if paused.Some? then !paused.value else old(isPlaying))
        && ((old(frameCountCheck) + 1) % 60 == 0 && playerDuration > 0.0 ==>
              frameCountCheck == 0 && totalFrames == (if duration <= 0.0 then old(totalFrames)
                                                      else ChooseFrameCount(sources, duration, fps)))
        && ((old(frameCountCheck) + 1) % 60 != 0 || playerDuration <= 0.0 ==>
              frameCountCheck == old(frameCountCheck) + 1 && totalFrames == old(totalFrames))
    {
      if !hasPlayer || isDragging || seekInProgress {
        return;
      }
      if timePos.None? {
        return;
      }
      FollowPosition(timePos.value);
      FollowPause(paused);
      CountTick(playerDuration, sources);
    }

    /** The position step of `handleSyncTimer`: moves of 0.01 s or less are ignored. */
    method FollowPosition(newPos: real)
      requires Valid()
      modifies this`position, this`currentFrame
      ensures Valid()
      ensures AbsReal(newPos - old(position)) > 0.01 ==>
                position == newPos && currentFrame == FrameFromPosition(newPos, fps, totalFrames)
      ensures AbsReal(newPos - old(position)) <= 0.01 ==>
                position == old(position) && currentFrame == old(currentFrame)
    {
      if AbsReal(newPos - position) > 0.01 {
        position := newPos;
        var newFrame := FrameFromPosition(newPos, fps, totalFrames);
        if newFrame != currentFrame {
          currentFrame := newFrame;
        }
      }
    }

    /** The pause step of `handleSyncTimer`. */
    method FollowPause(paused: Option<bool>)
      requires Valid()
      modifies this`isPlaying
      ensures Valid()
      ensures isPlaying == if paused.Some? then !paused.value else old(isPlaying)
    {
      if paused.Some? {
        var newPlayingState := !paused.value;
        if isPlaying != newPlayingState {
          isPlaying := newPlayingState;
        }
      }
    }

    /** The frame-count step of `handleSyncTimer`: every 60th tick with a duration. */
    method CountTick(playerDuration: real, sources: FrameCountSources)
      requires Valid() && hasPlayer
      modifies this`frameCountCheck, this`totalFrames
      ensures Valid()
      ensures (old(frameCountCheck) + 1) % 60 == 0 && playerDuration > 0.0 ==>
                frameCountCheck == 0 && totalFrames == (if duration <= 0.0 then old(totalFrames)
                                                        else ChooseFrameCount(sources, duration, fps))
      ensures (old(frameCountCheck) + 1) % 60 != 0 || playerDuration <= 0.0 ==>
                frameCountCheck == old(frameCountCheck) + 1 && totalFrames == old(totalFrames)
    {
      frameCountCheck := frameCountCheck + 1;
      if frameCountCheck % 60 == 0 && playerDuration > 0.0 {
        CalculateTotalFrames(sources);
        frameCountCheck := 0;
      }
    }

    /**
     * `completeSeek`, run by the seek timer: takes the player's final
     * position when it has one and ends the seek.
     */
    method CompleteSeek(timePos: Option<real>)
      requires Valid()
      modifies this`position, this`currentFrame, this`seekInProgress, this`updatePending, this`seekTimerArmed
      ensures Valid() && !seekInProgress && !updatePending && !seekTimerArmed
      ensures hasPlayer && timePos.Some? ==>
        position == timePos.value && currentFrame == FrameFromPosition(timePos.value, fps, totalFrames)
      ensures !(hasPlayer && timePos.Some?) ==> position == old(position) && currentFrame == old(currentFrame)
    {
      if hasPlayer && timePos.Some? {
        var finalPos := timePos.value;
        position := finalPos;
        var finalFrame := FrameFromPosition(finalPos, fps, totalFrames);
        if finalFrame != currentFrame {
          currentFrame := finalFrame;
        }
      }
      seekInProgress := false;
      updatePending := false;
      seekTimerArmed := false;
    }

    /**
     * `onMpvEndReached`: playback stops and, when the video has more than
     * three frames, the timeline moves to the third frame from the end.
     */
    method OnMpvEndReached()
      requires Valid()
      modifies this`isPlaying, this`currentFrame, this`position
      ensures Valid() && !isPlaying
      ensures old(totalFrames) > 3 ==>
        currentFrame == totalFrames - 3 && position == PositionFromFrame(totalFrames - 3, fps)
      ensures old(totalFrames) <= 3 ==> currentFrame == old(currentFrame) && position == old(position)
    {
      isPlaying := false;
      if totalFrames > 3 {
        var safeEndFrame := totalFrames - 3;
        currentFrame := safeEndFrame;
        position := PositionFromFrame(safeEndFrame, fps);
      }
    }

    /**
     * `onMpvFrameCountChanged`: only a new positive count is taken, and the
     * current frame is pulled back inside it.
     */
    method OnMpvFrameCountChanged(frameCount: int)
      requires Valid()
      modifies this`totalFrames, this`currentFrame
      ensures Valid()
      ensures frameCount <= 0 || frameCount == old(totalFrames) ==>
        totalFrames == old(totalFrames) && currentFrame == old(currentFrame)
      ensures frameCount > 0 && frameCount != old(totalFrames) ==>
        totalFrames == frameCount && currentFrame <= totalFrames - 1
        && currentFrame == (if old(currentFrame) >= frameCount then frameCount - 1 else old(currentFrame))
    {
      if totalFrames != frameCount && frameCount > 0 {
        totalFrames := frameCount;
        if currentFrame >= totalFrames {
          currentFrame := totalFrames - 1;
        }
      }
    }
  }
}

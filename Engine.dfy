/**
 * The FFmpeg playback engine (src/core/FFmpegEngine.cpp): it opens a
 * container, owns one video and at most one audio decode worker, keeps the
 * transport flags, advances a simulated position on a 16 ms timer, and holds
 * a clone of the newest decoded video and audio frame.
 *
 * Every Qt signal the engine emits is appended to `signals`. The two frame
 * slots carry a log of every clone made and every frame freed, so that the
 * single-owner rule for them is an invariant over those logs.
 */
module Engine {
  import opened CppMath
  import opened QtText
  import opened Media
  import Timecode
  import TimecodeLemmas
  import VideoDecoder
  import AudioDecoder

  /** The engine's signals, with their arguments. */
  datatype Signal =
    | FilenameChanged(filename: string)
    | PositionChanged(position: real)
    | DurationChanged(duration: real)
    | FpsChanged(fps: real)
    | FrameCountChanged(count: int)
    | PlayingChanged(playing: bool)
    | PauseChanged(paused: bool)
    | TimecodeChanged(timecode: string)
    | VideoFrameReady(frame: Frame)
    | AudioFrameReady(frame: Frame)
    | EndReached
    | Error(message: string)

  /** A `QVariant` as `getProperty` returns it; `Invalid` is the default-constructed one. */
  datatype Variant = Invalid | RealValue(r: real) | IntValue(i: int) | BoolValue(b: bool) | TextValue(s: string)

  /**
   * `QVariant::toInt()`: an integer as it is, a real rounded as `qRound`
   * rounds, a boolean as 1 or 0, a text as `QString::toInt` reads it (0 when
   * it is not a number), and 0 for an invalid variant.
   */
  function VariantToInt(v: Variant): (n: int)
    ensures v.RealValue? ==> AbsReal(n as real - v.r) <= 0.5
    ensures v.BoolValue? ==> (n == 1 <==> v.b) && (n == 0 <==> !v.b)
    ensures v.TextValue? ==> InInt32(n) && (ToInt(v.s).Some? ==> n == ToInt(v.s).value) && (ToInt(v.s).None? ==> n == 0)
  {
    match v
    case Invalid => 0
    case RealValue(r) => Round(r)
    case IntValue(i) => i
    case BoolValue(b) => if b then 1 else 0
    case TextValue(s) => ToIntOr0(s)
  }

  /** A format given as its decimal text is the same format as the number. */
  lemma FormatTextIsNumber(format: int)
    requires InInt32(format)
    ensures VariantToInt(TextValue(Number(format))) == VariantToInt(IntValue(format)) == format
  {
    NumberToInt(format);
  }

  /** The names `getProperty` answers. */
  const PropertyNames: set<string> := {"position", "duration", "fps", "frame-count", "paused", "playing", "timecode"}

  /** `m_positionTimer`'s step: each tick advances the position by 16 ms. */
  const TimerStep: real := 0.016

  /** `av_frame_clone`: a new frame, with a new identity, carrying the original's data. */
  function Clone(f: Frame, id: int): (c: Frame)
    ensures c.id == id && c.format == f.format && c.pts == f.pts && c.dts == f.dts
  {
    Frame(id, f.format, f.pts, f.dts)
  }

  /** What a frame slot holds, as a multiset. */
  function Held(slot: Option<Frame>): multiset<Frame>
  {
    if slot.Some? then multiset{slot.value} else multiset{}
  }

  /**
   * The two current-frame slots, with the log of every clone made (the
   * clone numbered `i` in the log has identity `i`) and of every frame freed.
   */
  datatype FrameSlots = FrameSlots(video: Option<Frame>, audio: Option<Frame>, clones: seq<Frame>, released: seq<Frame>)

  /** Each clone is either freed exactly once or held in one slot; clone identities are their log positions. */
  predicate Owns(s: FrameSlots)
  {
    && multiset(s.clones) == multiset(s.released) + Held(s.video) + Held(s.audio)
    && (forall i :: 0 <= i < |s.clones| ==> s.clones[i].id == i)
  }

  /** `handleVideoFrame` on the slots: the held frame is freed and a new clone is held. */
  function HoldVideo(s: FrameSlots, frame: Frame): (t: FrameSlots)
    ensures t.audio == s.audio
    ensures t.video.Some? && t.video.value.pts == frame.pts && t.video.value.dts == frame.dts
    ensures t.clones == s.clones + [t.video.value]
    ensures t.released == s.released + (if s.video.Some? then [s.video.value] else [])
  {
    var c := Clone(frame, |s.clones|);
    FrameSlots(Some(c), s.audio, s.clones + [c], s.released + (if s.video.Some? then [s.video.value] else []))
  }

  /** `handleAudioFrame` on the slots. */
  function HoldAudio(s: FrameSlots, frame: Frame): (t: FrameSlots)
    ensures t.video == s.video
    ensures t.audio.Some? && t.audio.value.pts == frame.pts && t.audio.value.dts == frame.dts
    ensures t.clones == s.clones + [t.audio.value]
    ensures t.released == s.released + (if s.audio.Some? then [s.audio.value] else [])
  {
    var c := Clone(frame, |s.clones|);
    FrameSlots(s.video, Some(c), s.clones + [c], s.released + (if s.audio.Some? then [s.audio.value] else []))
  }

  /** Replacing the video frame keeps every clone owned exactly once. */
  lemma HoldVideoOwns(s: FrameSlots, frame: Frame)
    requires Owns(s)
    ensures Owns(HoldVideo(s, frame))
  {
    var t := HoldVideo(s, frame);
    assert multiset(t.clones) == multiset(s.clones) + multiset{t.video.value};
  }

  /** Replacing the audio frame keeps every clone owned exactly once. */
  lemma HoldAudioOwns(s: FrameSlots, frame: Frame)
    requires Owns(s)
    ensures Owns(HoldAudio(s, frame))
  {
    var t := HoldAudio(s, frame);
    assert multiset(t.clones) == multiset(s.clones) + multiset{t.audio.value};
  }

  /** Frames whose identities are their positions occur at most once. */
  lemma {:induction false} DistinctClones(cs: seq<Frame>, f: Frame)
    requires forall i :: 0 <= i < |cs| ==> cs[i].id == i
    ensures multiset(cs)[f] <= 1
    decreases |cs|
  {
    if cs != [] {
      var n := |cs| - 1;
      var front := cs[..n];
      assert cs == front + [cs[n]];
      DistinctClones(front, f);
      if cs[n] == f {
        assert forall j :: 0 <= j < |front| ==> front[j].id != f.id;
        assert f !in front;
      }
    }
  }

  /**
   * Under the ownership rule no frame is freed twice, and a frame that has
   * been freed is not held in either slot.
   */
  lemma NoDoubleFree(s: FrameSlots, f: Frame)
    requires Owns(s)
    ensures multiset(s.released)[f] <= 1
    ensures f in s.released ==> s.video != Some(f) && s.audio != Some(f)
  {
    DistinctClones(s.clones, f);
  }

  /**
   * `updateTimecode`'s result: without a positive rate the text stays as it
   * was; otherwise it is the frame under the position, truncated toward
   * zero as `static_cast<int>` does, in the engine's format.
   */
  function TimecodeAt(previous: string, position: real, fps: real, format: int): (t: string)
    ensures fps <= 0.0 ==> t == previous
    ensures fps > 0.0 && format == 3 ==> t == Number(Timecode.FrameAt(position, fps))
    ensures fps > 0.0 && (format == 0 || format < 0 || format > 4) ==> t == Timecode.FrameToSMPTE(Timecode.FrameAt(position, fps), fps, false)
  {
    if fps <= 0.0 then previous else FrameText(Timecode.FrameAt(position, fps), fps, format)
  }

  /** `frameToTimecode` in the engine's integer format code. */
  function FrameText(frame: int, fps: real, format: int): string
  {
    Timecode.FrameToTimecode(frame, fps, Timecode.FormatOf(format))
  }

  /**
   * With the frames-only format the engine's timecode reads back as the
   * frame under the position, and that frame lies within one frame of it.
   */
  lemma TimecodeAtFramesOnly(previous: string, position: real, fps: real)
    requires fps > 0.0 && position >= 0.0 && InInt32(Timecode.FrameAt(position, fps))
    ensures var frame := Timecode.FrameAt(position, fps);
            && Timecode.TimecodeToFrame(TimecodeAt(previous, position, fps, 3), fps, Timecode.FramesOnly) == frame
            && frame as real <= position * fps < frame as real + 1.0
  {
    var frame := Timecode.FrameAt(position, fps);
    var t := TimecodeAt(previous, position, fps, 3);
    assert t == Number(frame);
    NumberToInt(frame);
    assert Timecode.TimecodeToFrame(t, fps, Timecode.FramesOnly) == ToIntOr0(t);
    TimecodeLemmas.FrameUnder(position, fps);
  }

  /** Whether `VideoDecoder::initialize` succeeds on a stream. */
  predicate VideoOpens(s: Stream)
  {
    s.codecFound && s.contextAllocates && s.parametersCopy && s.codecOpens
  }

  /** Whether `AudioDecoder::initialize` succeeds on a stream: for a format other than S16 the resampler must set up. */
  predicate AudioOpens(s: Stream)
  {
    && s.codecFound && s.contextAllocates && s.parametersCopy && s.codecOpens
    && (s.sampleFormat != SampleFmtS16 ==> s.resamplerAllocates && s.resamplerInitialises)
  }

  /** The transport: `m_isPlaying`, `m_isPaused`, `m_position`, and whether `m_positionTimer` runs. */
  datatype Transport = Transport(playing: bool, paused: bool, position: real, timerRunning: bool)

  /** What an opened file tells the engine: name, duration in seconds, rate, frame count, stream indices. */
  datatype MediaFacts = MediaFacts(filename: string, duration: real, fps: real, frameCount: int,
                                   videoStream: int, audioStream: int)

  /** The media facts of the constructor and of `closeFile`. */
  const NoMedia: MediaFacts := MediaFacts("", 0.0, 0.0, 0, -1, -1)

  /** The signals `closeFile` emits after the reset. */
  const ClosedSignals: seq<Signal> :=
    [FilenameChanged(""), PositionChanged(0.0), DurationChanged(0.0), FpsChanged(0.0), FrameCountChanged(0)]

  // ---------------------------------------------------------------- locking

  /** Taking and releasing the engine's `m_mutex`, a non-recursive QMutex, on the engine's thread. */
  datatype LockStep = Take | Release

  /**
   * Whether a run of lock steps finishes, with whether the mutex is then
   * held: `None` as soon as a step takes the mutex the thread already holds,
   * which waits for itself forever.
   */
  function RunLocks(held: bool, steps: seq<LockStep>): (r: Option<bool>)
    ensures steps == [] ==> r == Some(held)
    decreases |steps|
  {
    if steps == [] then Some(held)
    else match steps[0]
      case Take => if held then None else RunLocks(true, steps[1..])
      case Release => RunLocks(false, steps[1..])
  }

  /** A member whose `QMutexLocker` holds the mutex around `body`. */
  function Locked(body: seq<LockStep>): (steps: seq<LockStep>)
    ensures |steps| == |body| + 2 && steps[0] == Take && steps[|steps| - 1] == Release
  {
    [Take] + body + [Release]
  }

  /** `stop` holds its own locker. */
  const StopLocks: seq<LockStep> := Locked([])

  /** `closeFile` as written: its locker, then `stop` inside it. */
  const CloseFileLocks: seq<LockStep> := Locked(StopLocks)

  /**
   * `openFile` as written: `closeFile`, then its own locker, inside which the
   * failures after the file is opened (`closesAgain`) call `closeFile` again.
   */
  function OpenFileLocks(closesAgain: bool): seq<LockStep>
  {
    CloseFileLocks + Locked(if closesAgain then CloseFileLocks else [])
  }

  /** The evident intent: `closeFile` runs the steps of `stop` under its one locker. */
  const CloseFileLocksCorrected: seq<LockStep> := Locked([])

  /** The evident intent for `openFile`: the closes inside its locker do not take the mutex again. */
  function OpenFileLocksCorrected(closesAgain: bool): seq<LockStep>
  {
    CloseFileLocksCorrected + Locked([])
  }

  /** Running two stretches of steps is running the second from where the first leaves the mutex. */
  lemma {:induction false} RunLocksConcat(held: bool, a: seq<LockStep>, b: seq<LockStep>)
    ensures RunLocks(held, a + b) == match RunLocks(held, a)
                                     case None => None
                                     case Some(h) => RunLocks(h, b)
    decreases |a|
  {
    if a == [] {
      assert a + b == b;
    } else {
      assert (a + b)[0] == a[0] && (a + b)[1..] == a[1..] + b;
      match a[0]
      case Take =>
        if !held {
          RunLocksConcat(true, a[1..], b);
        }
      case Release =>
        RunLocksConcat(false, a[1..], b);
    }
  }

  /**
   * As written, `closeFile` never returns: `stop` takes the mutex that
   * `closeFile` holds. So nothing that begins with it returns either:
   * `openFile`, whose first statement it is, and the destructor.
   */
  lemma CloseFileBlocks(rest: seq<LockStep>)
    ensures RunLocks(false, CloseFileLocks) == None
    ensures RunLocks(false, CloseFileLocks + rest) == None
  {
    assert CloseFileLocks == [Take, Take, Release, Release];
    RunLocksConcat(false, CloseFileLocks, rest);
  }

  /** As written, `openFile` never returns, whichever way it ends. */
  lemma OpenFileBlocks(closesAgain: bool)
    ensures RunLocks(false, OpenFileLocks(closesAgain)) == None
  {
    CloseFileBlocks(Locked(if closesAgain then CloseFileLocks else []));
  }

  /** With the corrected locking, `closeFile` and `openFile` return and leave the mutex free. */
  lemma CloseFileCorrectedReturns(closesAgain: bool)
    ensures RunLocks(false, CloseFileLocksCorrected) == Some(false)
    ensures RunLocks(false, OpenFileLocksCorrected(closesAgain)) == Some(false)
  {
    assert CloseFileLocksCorrected == [Take, Release];
    RunLocksConcat(false, CloseFileLocksCorrected, Locked([]));
    assert Locked([]) == [Take, Release];
  }

  class FFmpegEngine {
    /** `m_formatContext`. */
    var container: Option<Container>
    var media: MediaFacts
    var transport: Transport
    var video: VideoDecoder.VideoDecoder?
    var audio: AudioDecoder.AudioDecoder?
    var timecodeFormat: int
    var timecode: string
    var slots: FrameSlots
    var signals: seq<Signal>

    /**
     * A present worker is initialised on the engine's container; the
     * position timer runs exactly while playing and not paused; the position
     * never runs past the duration (or past zero, for a container whose
     * duration is negative). Ownership of the frame clones is kept apart,
     * as `Owns(slots)`: only the two frame handlers change the slots.
     */
    ghost predicate Valid()
      reads this, video, audio
    {
      && (video != null ==> video.Valid() && video.container.Some? && video.stream.Some? && container.Some?)
      && (audio != null ==> audio.Valid() && audio.container.Some? && container.Some?)
      && transport.timerRunning == (transport.playing && !transport.paused)
      && transport.position <= MaxReal(media.duration, 0.0)
    }

    /** The state `closeFile` leaves: no container, no workers, no media facts, stopped at 0. */
    ghost predicate Closed()
      reads this
    {
      && container.None? && video == null && audio == null && media == NoMedia
      && !transport.playing && !transport.paused && !transport.timerRunning && transport.position == 0.0
    }

    /** The constructor: nothing open, stream indices -1, a stopped 16 ms timer. */
    constructor ()
      ensures Valid() && Closed() && Owns(slots)
      ensures timecodeFormat == 0 && timecode == ""
      ensures slots == FrameSlots(None, None, [], []) && signals == []
    {
      container := None;
      media := NoMedia;
      transport := Transport(false, false, 0.0, false);
      video := null;
      audio := null;
      timecodeFormat := 0;
      timecode := "";
      slots := FrameSlots(None, None, [], []);
      signals := [];
    }

    /**
     * `play`: nothing without an open file or while already playing;
     * otherwise playing and unpaused, both workers started, the timer running.
     */
    method Play()
      requires Valid()
      modifies this`transport, this`signals, video, audio
      ensures Valid()
      ensures old(container.None? || transport.playing) ==>
        transport == old(transport) && signals == old(signals)
        && (video != null ==> unchanged(video)) && (audio != null ==> unchanged(audio))
      ensures old(container.Some? && !transport.playing) ==>
        && transport == old(transport).(playing := true, paused := false, timerRunning := true)
        && (video != null ==> video.running && (!old(video.running) ==> !video.paused))
        && (audio != null ==> audio.running && (!old(audio.running) ==> !audio.paused))
        && signals == old(signals) + [PlayingChanged(true), PauseChanged(false)]
    {
      if container.None? || transport.playing {
        return;
      }
      transport := transport.(playing := true, paused := false);
      if video != null {
        video.Start();
      }
      if audio != null {
        audio.Start();
      }
      transport := transport.(timerRunning := true);
      signals := signals + [PlayingChanged(transport.playing), PauseChanged(transport.paused)];
    }

    /**
     * `pause`: only while playing with a file open; toggles the pause flag,
     * pauses or resumes both workers to match, and stops the timer while
     * paused.
     */
    method Pause()
      requires Valid()
      modifies this`transport, this`signals, video, audio
      ensures Valid()
      ensures old(container.None? || !transport.playing) ==>
        transport == old(transport) && signals == old(signals)
        && (video != null ==> unchanged(video)) && (audio != null ==> unchanged(audio))
      ensures old(container.Some? && transport.playing) ==>
        && transport == old(transport).(paused := !old(transport.paused), timerRunning := old(transport.paused))
        && (video != null ==> video.paused == transport.paused && video.running == old(video.running))
        && (audio != null ==> audio.paused == transport.paused && audio.running == old(audio.running))
        && signals == old(signals) + [PauseChanged(transport.paused)]
    {
      if container.None? || !transport.playing {
        return;
      }
      var paused := !transport.paused;
      transport := transport.(paused := paused);
      PauseWorkers(paused);
      transport := transport.(timerRunning := !paused);
      signals := signals + [PauseChanged(paused)];
    }

    /** The worker half of `pause`. */
    method PauseWorkers(paused: bool)
      requires video != null ==> video.Valid()
      requires audio != null ==> audio.Valid()
      modifies video, audio
      ensures video != null ==> video.Valid() && video.paused == paused && video.running == old(video.running)
      ensures video != null ==> video.container == old(video.container) && video.stream == old(video.stream)
      ensures audio != null ==> audio.Valid() && audio.paused == paused && audio.running == old(audio.running)
      ensures audio != null ==> audio.container == old(audio.container)
    {
      if video != null {
        if paused {
          video.Pause();
        } else {
          video.Resume();
        }
      }
      if audio != null {
        if paused {
          audio.Pause();
        } else {
          audio.Resume();
        }
      }
    }

    /**
     * `stop`: nothing unless playing or paused; otherwise both flags drop,
     * the timer and both workers stop, and the position returns to 0.
     */
    method Stop()
      requires Valid()
      modifies this`transport, this`signals, video, audio
      ensures Valid()
      ensures old(!transport.playing && !transport.paused) ==>
        transport == old(transport) && signals == old(signals)
        && (video != null ==> unchanged(video)) && (audio != null ==> unchanged(audio))
      ensures old(transport.playing || transport.paused) ==>
        && transport == Transport(false, false, 0.0, false)
        && (video != null ==> !video.running)
        && (audio != null ==> !audio.running)
        && signals == old(signals) + [PlayingChanged(false), PauseChanged(false), PositionChanged(0.0)]
    {
      if !transport.playing && !transport.paused {
        return;
      }
      transport := transport.(playing := false, paused := false, timerRunning := false);
      StopWorkers();
      transport := transport.(position := 0.0);
      signals := signals + [PlayingChanged(false), PauseChanged(false), PositionChanged(transport.position)];
    }

    /** The worker half of `stop`. */
    method StopWorkers()
      requires video != null ==> video.Valid()
      requires audio != null ==> audio.Valid()
      modifies video, audio
      ensures video != null ==> video.Valid() && !video.running
      ensures video != null ==> video.container == old(video.container) && video.stream == old(video.stream)
      ensures audio != null ==> audio.Valid() && !audio.running
      ensures audio != null ==> audio.container == old(audio.container)
    {
      if video != null {
        video.Stop();
      }
      if audio != null {
        audio.Stop();
      }
    }

    /**
     * `closeFile`: stops playback, deletes the workers, closes the
     * container, and resets the media facts and both stream indices. This is
     * the call under the corrected locking (`CloseFileLocksCorrected`); as
     * written it never returns (`CloseFileBlocks`).
     */
    method CloseFile()
      requires Valid()
      modifies this, video, audio
      ensures Valid() && Closed()
      ensures timecodeFormat == old(timecodeFormat) && timecode == old(timecode) && slots == old(slots)
      ensures old(transport.playing || transport.paused) ==>
        signals == old(signals) + [PlayingChanged(false), PauseChanged(false), PositionChanged(0.0)] + ClosedSignals
      ensures old(!transport.playing && !transport.paused) ==> signals == old(signals) + ClosedSignals
    {
      Stop();
      video := null;
      audio := null;
      container := None;
      media := NoMedia;
      transport := transport.(position := 0.0);
      signals := signals + ClosedSignals;
    }

    /**
     * `openFile`: closes what was open, then fails (with an error signal)
     * when the file is missing, the format context cannot be allocated, the
     * file cannot be opened, no stream information is found, there is no
     * video stream or the video worker does not initialise; the last three
     * close the file again. An audio worker that does not initialise is
     * dropped. On success the engine takes the container's duration in
     * seconds and the video worker's rate and frame count, stopped at 0.
     * Like `CloseFile`, this is the call under the corrected locking; as
     * written it never returns (`OpenFileBlocks`).
     */
    method OpenFile(name: string, fileExists: bool, allocOk: bool, openResult: Option<Container>, streamInfoOk: bool,
                    videoIndex: int, audioIndex: int, platform: VideoDecoder.Platform, creatable: set<HwType>)
      returns (ok: bool)
      requires Valid()
      requires openResult.Some? ==> videoIndex < |openResult.value.streams| && audioIndex < |openResult.value.streams|
      modifies this, video, audio
      ensures Valid()
      ensures timecodeFormat == old(timecodeFormat) && timecode == old(timecode) && slots == old(slots)
      ensures ok <==> fileExists && allocOk && openResult.Some? && streamInfoOk && videoIndex >= 0
                      && VideoOpens(openResult.value.streams[videoIndex])
      ensures !ok ==> Closed()
      ensures ok ==>
        var c := openResult.value;
        var s := c.streams[videoIndex];
        var rate := VideoDecoder.StreamFps(s, 0.0);
        && container == openResult
        && media == MediaFacts(name, c.duration as real / AvTimeBase as real, rate,
                               VideoDecoder.StreamFrameCount(s, c.duration, rate, 0), videoIndex, audioIndex)
        && transport == Transport(false, false, 0.0, false)
        && video != null && fresh(video) && video.stream == Some(s)
        && (audio != null <==> audioIndex >= 0 && AudioOpens(c.streams[audioIndex]))
        && (audio != null ==> fresh(audio) && audio.stream == Some(c.streams[audioIndex]))
        && |signals| >= 4
        && signals[|signals| - 4..] == [FilenameChanged(name), DurationChanged(media.duration),
                                        FpsChanged(media.fps), FrameCountChanged(media.frameCount)]
    {
      CloseFile();
      ok := OpenContainer(name, fileExists, allocOk, openResult, streamInfoOk, videoIndex, audioIndex);
      if !ok {
        return;
      }
      ok := FinishOpen(name, openResult.value, videoIndex, audioIndex, platform, creatable);
    }

    /** The container half of `openFile`, from the existence check to the stream indices. */
    method OpenContainer(name: string, fileExists: bool, allocOk: bool, openResult: Option<Container>,
                         streamInfoOk: bool, videoIndex: int, audioIndex: int) returns (ok: bool)
      requires Valid() && Closed()
      modifies this
      ensures Valid()
      ensures timecodeFormat == old(timecodeFormat) && timecode == old(timecode) && slots == old(slots)
      ensures ok <==> fileExists && allocOk && openResult.Some? && streamInfoOk && videoIndex >= 0
      ensures !ok ==> Closed()
      ensures ok ==> container == openResult && video == null && audio == null
                     && media == NoMedia.(videoStream := videoIndex, audioStream := audioIndex)
                     && transport == old(transport) && signals == old(signals)
    {
      if !fileExists {
        signals := signals + [Error("File does not exist: " + name)];
        return false;
      }
      if !allocOk {
        signals := signals + [Error("Failed to allocate format context")];
        return false;
      }
      if openResult.None? {
        signals := signals + [Error("Failed to open file: " + name)];
        return false;
      }
      container := openResult;
      if !streamInfoOk {
        signals := signals + [Error("Failed to find stream info")];
        CloseFile();
        return false;
      }
      media := media.(videoStream := videoIndex, audioStream := audioIndex);
      if videoIndex < 0 {
        signals := signals + [Error("No video stream found")];
        CloseFile();
        return false;
      }
      return true;
    }

    /** The decoder half of `openFile`: the workers, then the media facts and their signals. */
    method FinishOpen(name: string, c: Container, videoIndex: int, audioIndex: int,
                      platform: VideoDecoder.Platform, creatable: set<HwType>) returns (ok: bool)
      requires Valid() && container == Some(c) && video == null && audio == null
      requires 0 <= videoIndex < |c.streams| && audioIndex < |c.streams|
      requires transport == Transport(false, false, 0.0, false)
      modifies this
      ensures Valid()
      ensures timecodeFormat == old(timecodeFormat) && timecode == old(timecode) && slots == old(slots)
      ensures ok == VideoOpens(c.streams[videoIndex])
      ensures !ok ==> Closed()
      ensures ok ==>
        var s := c.streams[videoIndex];
        var rate := VideoDecoder.StreamFps(s, 0.0);
        && container == Some(c)
        && media == MediaFacts(name, c.duration as real / AvTimeBase as real, rate,
                               VideoDecoder.StreamFrameCount(s, c.duration, rate, 0), videoIndex, audioIndex)
        && transport == old(transport)
        && video != null && fresh(video) && video.stream == Some(s)
        && (audio != null <==> audioIndex >= 0 && AudioOpens(c.streams[audioIndex]))
        && (audio != null ==> fresh(audio) && audio.stream == Some(c.streams[audioIndex]))
        && signals == old(signals) + [FilenameChanged(name), DurationChanged(media.duration),
                                      FpsChanged(media.fps), FrameCountChanged(media.frameCount)]
    {
      ok := StartWorkers(c, videoIndex, audioIndex, platform, creatable);
      if !ok {
        signals := signals + [Error("Failed to initialize video decoder")];
        CloseFile();
        return false;
      }
      media := MediaFacts(name, c.duration as real / AvTimeBase as real, video.fps, video.frameCount,
                          videoIndex, audioIndex);
      signals := signals + [FilenameChanged(name), DurationChanged(media.duration),
                            FpsChanged(media.fps), FrameCountChanged(media.frameCount)];
    }

    /**
     * The worker half of `openFile`: a new video worker, and when it
     * initialises and there is an audio stream, a new audio worker that is
     * kept only if it initialises too.
     */
    method StartWorkers(c: Container, videoIndex: int, audioIndex: int,
                        platform: VideoDecoder.Platform, creatable: set<HwType>) returns (ok: bool)
      requires Valid() && container == Some(c) && video == null && audio == null
      requires 0 <= videoIndex < |c.streams| && audioIndex < |c.streams|
      modifies this`video, this`audio
      ensures Valid()
      ensures ok == VideoOpens(c.streams[videoIndex])
      ensures video != null && fresh(video) && video.stream == Some(c.streams[videoIndex])
      ensures ok ==> video.fps == VideoDecoder.StreamFps(c.streams[videoIndex], 0.0)
                     && video.frameCount == VideoDecoder.StreamFrameCount(c.streams[videoIndex], c.duration, video.fps, 0)
      ensures ok ==> (audio != null <==> audioIndex >= 0 && AudioOpens(c.streams[audioIndex]))
      ensures ok && audio != null ==> fresh(audio) && audio.stream == Some(c.streams[audioIndex])
      ensures !ok ==> audio == null
    {
      var v := new VideoDecoder.VideoDecoder();
      ok := v.Initialize(container, videoIndex, platform, creatable);
      video := v;
      if !ok {
        return;
      }
      if audioIndex >= 0 {
        var a := new AudioDecoder.AudioDecoder();
        var audioOk := a.Initialize(container, audioIndex);
        if audioOk {
          audio := a;
        }
      }
    }

    /**
     * `seekToPosition`: nothing without a file or for a position outside
     * `[0, duration]`; otherwise the position is set exactly, both workers
     * seek (each succeeding or not), and the timecode follows.
     */
    method SeekToPosition(pos: real, videoSeekOk: bool, audioSeekOk: bool)
      requires Valid()
      modifies this`transport, this`timecode, this`signals, video, audio
      ensures Valid()
      ensures old(container.None? || pos < 0.0 || pos > media.duration) ==>
        transport == old(transport) && timecode == old(timecode) && signals == old(signals)
        && (video != null ==> unchanged(video)) && (audio != null ==> unchanged(audio))
      ensures old(container.Some? && 0.0 <= pos <= media.duration) ==>
        && transport == old(transport).(position := pos)
        && timecode == TimecodeAt(old(timecode), pos, media.fps, timecodeFormat)
        && (video != null && videoSeekOk ==> video.currentPosition == pos)
        && (video != null && !videoSeekOk ==> video.currentPosition == old(video.currentPosition))
        && (audio != null && audioSeekOk ==> audio.queue == [])
        && (audio != null && !audioSeekOk ==> audio.queue == old(audio.queue))
        && signals == old(signals) + [PositionChanged(pos), TimecodeChanged(timecode)]
    {
      if container.None? || pos < 0.0 || pos > media.duration {
        return;
      }
      transport := transport.(position := pos);
      SeekWorkers(pos, videoSeekOk, audioSeekOk);
      UpdateTimecode();
      signals := signals + [PositionChanged(pos), TimecodeChanged(timecode)];
    }

    /** The worker half of `seekToPosition`. */
    method SeekWorkers(pos: real, videoSeekOk: bool, audioSeekOk: bool)
      requires pos >= 0.0
      requires video != null ==> video.Valid() && video.container.Some?
      requires audio != null ==> audio.Valid() && audio.container.Some?
      modifies video, audio
      ensures video != null ==> video.Valid() && video.container == old(video.container) && video.stream == old(video.stream)
      ensures video != null && videoSeekOk ==> video.currentPosition == pos
      ensures video != null && !videoSeekOk ==> video.currentPosition == old(video.currentPosition)
      ensures audio != null ==> audio.Valid() && audio.container == old(audio.container)
      ensures audio != null && audioSeekOk ==> audio.queue == []
      ensures audio != null && !audioSeekOk ==> audio.queue == old(audio.queue)
    {
      if video != null {
        var _ := video.SeekToPosition(pos, videoSeekOk);
      }
      if audio != null {
        var _, _ := audio.SeekToPosition(pos, audioSeekOk);
      }
    }

    /** `seekToFrame`: nothing without a positive rate; otherwise a seek to `frame / fps` seconds. */
    method SeekToFrame(frame: int, videoSeekOk: bool, audioSeekOk: bool)
      requires Valid()
      modifies this`transport, this`timecode, this`signals, video, audio
      ensures Valid()
      ensures old(media.fps) <= 0.0 || !(old(container.Some?) && 0.0 <= frame as real / old(media.fps) <= media.duration) ==>
        transport == old(transport) && timecode == old(timecode) && signals == old(signals)
      ensures old(media.fps) > 0.0 && old(container.Some?) && 0.0 <= frame as real / media.fps <= media.duration ==>
        transport == old(transport).(position := frame as real / media.fps)
        && timecode == TimecodeAt(old(timecode), frame as real / media.fps, media.fps, timecodeFormat)
    {
      if media.fps <= 0.0 {
        return;
      }
      SeekToPosition(frame as real / media.fps, videoSeekOk, audioSeekOk);
    }

    /** `setTimecodeFormat`, declared inline in the engine's header. */
    method SetTimecodeFormat(format: int)
      modifies this`timecodeFormat
      ensures timecodeFormat == format
    {
      timecodeFormat := format;
    }

    /** `updateTimecode`. */
    method UpdateTimecode()
      modifies this`timecode
      ensures timecode == TimecodeAt(old(timecode), transport.position, media.fps, timecodeFormat)
    {
      if media.fps <= 0.0 {
        return;
      }
      var currentFrame := Timecode.FrameAt(transport.position, media.fps);
      timecode := FrameText(currentFrame, media.fps, timecodeFormat);
    }

    /**
     * `handleVideoFrame`: the frame held so far is freed and a clone of the
     * new one takes its place, so the slot keeps one frame and nothing leaks.
     */
    method HandleVideoFrame(frame: Frame)
      requires Owns(slots)
      modifies this`slots, this`signals
      ensures Owns(slots)
      ensures slots == HoldVideo(old(slots), frame)
      ensures signals == old(signals) + [VideoFrameReady(slots.video.value)]
    {
      HoldVideoOwns(slots, frame);
      slots := HoldVideo(slots, frame);
      signals := signals + [VideoFrameReady(slots.video.value)];
    }

    /** `handleAudioFrame`: the same rule for the audio slot. */
    method HandleAudioFrame(frame: Frame)
      requires Owns(slots)
      modifies this`slots, this`signals
      ensures Owns(slots)
      ensures slots == HoldAudio(old(slots), frame)
      ensures signals == old(signals) + [AudioFrameReady(slots.audio.value)]
    {
      HoldAudioOwns(slots, frame);
      slots := HoldAudio(slots, frame);
      signals := signals + [AudioFrameReady(slots.audio.value)];
    }

    /** `handleEndOfStream`: playing stops and the timer with it; the pause flag, the position and the workers stay. */
    method HandleEndOfStream()
      modifies this`transport, this`signals
      ensures transport == old(transport).(playing := false, timerRunning := false)
      ensures signals == old(signals) + [PlayingChanged(false), EndReached]
    {
      transport := transport.(playing := false, timerRunning := false);
      signals := signals + [PlayingChanged(false), EndReached];
    }

    /**
     * `onPositionTimer`: only while playing and not paused, the position
     * advances by 16 ms; a position that reaches the duration is set to it
     * and ends the stream, otherwise the timecode follows.
     */
    method OnPositionTimer()
      requires Valid()
      modifies this`transport, this`timecode, this`signals
      ensures Valid()
      ensures old(!transport.playing || transport.paused) ==>
        transport == old(transport) && timecode == old(timecode) && signals == old(signals)
      ensures old(transport.playing && !transport.paused) && old(transport.position) + TimerStep >= media.duration ==>
        transport == Transport(false, false, media.duration, false) && timecode == old(timecode)
        && signals == old(signals) + [PlayingChanged(false), EndReached]
      ensures old(transport.playing && !transport.paused) && old(transport.position) + TimerStep < media.duration ==>
        transport == old(transport).(position := old(transport.position) + TimerStep)
        && timecode == TimecodeAt(old(timecode), transport.position, media.fps, timecodeFormat)
        && signals == old(signals) + [PositionChanged(transport.position), TimecodeChanged(timecode)]
      ensures transport.position <= media.duration || transport.position == old(transport.position)
    {
      if transport.playing && !transport.paused {
        var next := transport.position + TimerStep;
        if next >= media.duration {
          transport := transport.(position := media.duration);
          HandleEndOfStream();
          return;
        }
        transport := transport.(position := next);
        UpdateTimecode();
        signals := signals + [PositionChanged(next), TimecodeChanged(timecode)];
      }
    }

    /**
     * `setProperty`: "timecode-format" is the one name it acts on; the value
     * is read with `QVariant::toInt`, the time code recomputed and signalled.
     * Any other name changes nothing.
     */
    method SetProperty(name: string, value: Variant)
      modifies this`timecodeFormat, this`timecode, this`signals
      ensures name != "timecode-format" ==>
        timecodeFormat == old(timecodeFormat) && timecode == old(timecode) && signals == old(signals)
      ensures name == "timecode-format" ==>
        timecodeFormat == VariantToInt(value)
        && timecode == TimecodeAt(old(timecode), transport.position, media.fps, timecodeFormat)
        && signals == old(signals) + [TimecodeChanged(timecode)]
    {
      if name == "timecode-format" {
        SetTimecodeFormat(VariantToInt(value));
        UpdateTimecode();
        signals := signals + [TimecodeChanged(timecode)];
      }
    }

    /** `getProperty`: the seven named values, and an invalid variant for any other name. */
    function GetProperty(name: string): (v: Variant)
      reads this
      ensures v.Invalid? <==> name !in PropertyNames
      ensures name == "position" ==> v == RealValue(transport.position)
      ensures name == "duration" ==> v == RealValue(media.duration)
      ensures name == "fps" ==> v == RealValue(media.fps)
      ensures name == "frame-count" ==> v == IntValue(media.frameCount)
      ensures name == "paused" ==> v == BoolValue(transport.paused)
      ensures name == "playing" ==> v == BoolValue(transport.playing)
      ensures name == "timecode" ==> v == TextValue(timecode)
    {
      if name == "position" then RealValue(transport.position)
      else if name == "duration" then RealValue(media.duration)
      else if name == "fps" then RealValue(media.fps)
      else if name == "frame-count" then IntValue(media.frameCount)
      else if name == "paused" then BoolValue(transport.paused)
      else if name == "playing" then BoolValue(transport.playing)
      else if name == "timecode" then TextValue(timecode)
      else Invalid
    }
  }
}

/**
 * What the mpv session logic promises, proved about the step functions of
 * module `Mpv` (src/mpvobject.cpp).
 */
module MpvLemmas {
  import opened CppMath
  import opened QtText
  import opened MpvTimecode
  import opened MpvTimecodeLemmas
  import opened Mpv

  // ----------------------------------------------------------- frame count

  /**
   * `updateFrameCount` takes the first positive value of estimated-frame-count,
   * demux-frame-count, frame-count and `ceil(duration * fps)`, in that order,
   * and never less than 1.
   */
  lemma FrameCountPriority(p: FrameCountProbe, duration: real, fps: real)
    ensures ChosenFrameCount(p, duration, fps)
            == Max(1, FirstPositive([Candidate(p.estimated), Candidate(p.demux), Candidate(p.counted),
                                     Fallback(duration, fps)]))
  {
    var a, b, c, d := Candidate(p.estimated), Candidate(p.demux), Candidate(p.counted), Fallback(duration, fps);
    var xs := [a, b, c, d];
    assert [d][1..] == [];
    assert FirstPositive([d]) == if d > 0 then d else 0;
    assert [c, d][1..] == [d];
    assert FirstPositive([c, d]) == if c > 0 then c else FirstPositive([d]);
    assert [b, c, d][1..] == [c, d];
    assert FirstPositive([b, c, d]) == if b > 0 then b else FirstPositive([c, d]);
    assert xs[1..] == [b, c, d];
    assert FirstPositive(xs) == if a > 0 then a else FirstPositive([b, c, d]);
    if duration > 0.0 && fps > 0.0 {
      assert duration * fps > 0.0;
    }
  }

  /** A positive later source counts only when every earlier one is missing or rounds to 0. */
  lemma FrameCountSources(p: FrameCountProbe, duration: real, fps: real)
    ensures Candidate(p.estimated) > 0 ==> ChosenFrameCount(p, duration, fps) == Candidate(p.estimated)
    ensures Candidate(p.estimated) <= 0 && Candidate(p.demux) > 0
            ==> ChosenFrameCount(p, duration, fps) == Candidate(p.demux)
    ensures Candidate(p.estimated) <= 0 && Candidate(p.demux) <= 0 && Candidate(p.counted) > 0
            ==> ChosenFrameCount(p, duration, fps) == Candidate(p.counted)
    ensures Candidate(p.estimated) <= 0 && Candidate(p.demux) <= 0 && Candidate(p.counted) <= 0
            ==> ChosenFrameCount(p, duration, fps) == Max(1, Fallback(duration, fps))
  {
    FrameCountPriority(p, duration, fps);
  }

  /** `updateFrameCount` changes the count alone, and only when it is not skipped. */
  lemma CountFramesEffect(t: Transport, m: MediaInfo, env: Environment)
    ensures FrameCountSkipped(t, m, env) ==> CountFrames(t, m, env) == m
    ensures !FrameCountSkipped(t, m, env) ==> CountFrames(t, m, env).frameCount >= 1
    ensures CountFrames(t, m, env).(frameCount := m.frameCount) == m
  {
  }

  // ---------------------------------------------------------------- events

  /**
   * What event handling leaves alone: the requests to mpv, the settings and
   * the last stop position; timers are only ever added; and a frame count of
   * at least 1 stays so.
   */
  predicate Settled(a: Session, b: Session)
  {
    b.requests == a.requests && a.scheduled <= b.scheduled &&
    b.transport.lastPosition == a.transport.lastPosition && b.transport.loopEnabled == a.transport.loopEnabled &&
    b.media.oneBased == a.media.oneBased &&
    b.code.format == a.code.format && b.code.useEmbedded == a.code.useEmbedded &&
    b.code.offset == a.code.offset && b.code.pattern == a.code.pattern && b.code.source == a.code.source &&
    (a.media.frameCount >= 1 ==> b.media.frameCount >= 1)
  }

  lemma SettledTransitive(a: Session, b: Session, c: Session)
    requires Settled(a, b) && Settled(b, c)
    ensures Settled(a, c)
  {
    assert a.scheduled <= c.scheduled by {
      assert a.scheduled == b.scheduled[..|a.scheduled|];
      assert b.scheduled == c.scheduled[..|b.scheduled|];
      assert c.scheduled[..|b.scheduled|][..|a.scheduled|] == c.scheduled[..|a.scheduled|];
    }
  }

  lemma CountSettled(s: Session, t: Transport, env: Environment)
    ensures var m := CountFrames(t, s.media, env);
            m.oneBased == s.media.oneBased && (s.media.frameCount >= 1 ==> m.frameCount >= 1)
  {
  }

  /** One event is settled. */
  lemma EventSettled(s: Session, e: MpvEvent, env: Environment)
    ensures Settled(s, ApplyEvent(s, e, env))
  {
    match e
    case DurationChanged(d) =>
      if d.Some? && AbsReal(s.transport.duration - d.value) > 0.1 {
        CountSettled(s, s.transport.(duration := d.value), env);
      }
    case FpsChanged(r) =>
      if r.Some? && r.value > 0.0 && AbsReal(s.transport.fps - r.value) > 0.01 {
        CountSettled(s, s.transport.(fps := r.value), env);
      }
    case _ =>
  }

  /** A whole drain of `handleMpvEvents` is settled. */
  lemma {:induction false} DrainSettled(s: Session, events: seq<MpvEvent>, env: Environment)
    ensures Settled(s, Drain(s, events, env))
    decreases |events|
  {
    if events != [] {
      var before := Drain(s, events[..|events| - 1], env);
      DrainSettled(s, events[..|events| - 1], env);
      EventSettled(before, events[|events| - 1], env);
      SettledTransitive(s, before, Drain(s, events, env));
    }
  }

  /**
   * A `time-pos` event always moves the position; the seek time is stamped
   * exactly when the move is a seek.
   */
  lemma TimePosFollows(t: Transport, x: real, now: int)
    ensures TimePosStep(t, Some(x), now).position == x
    ensures IsSeek(t.position, x) ==> TimePosStep(t, Some(x), now).lastSeekTime == now
    ensures !IsSeek(t.position, x) ==> TimePosStep(t, Some(x), now).lastSeekTime == t.lastSeekTime
    ensures TimePosStep(t, Some(x), now).(position := t.position, lastSeekTime := t.lastSeekTime) == t
  {
  }

  /** A move of at most half a second, or one from a negative position, is never a seek. */
  lemma SmallMoveIsNoSeek(previous: real, position: real)
    requires previous < 0.0 || (previous - 0.5 <= position <= previous + 0.5)
    ensures !IsSeek(previous, position)
  {
  }

  // ------------------------------------------------------------------ seek

  /**
   * `seekToPosition` does nothing without a duration; otherwise it stamps the
   * time, clears the end flag, and parks at `pos` clamped to [0, duration - 0.1],
   * asking mpv for an exact seek there.
   */
  lemma SeekClamps(s: Session, pos: real, now: int)
    ensures s.transport.duration <= 0.0 ==> SeekStep(s, pos, now) == s
    ensures s.transport.duration > 0.0 ==>
      var r := SeekStep(s, pos, now);
      var p := r.transport.position;
      && r.transport.lastSeekTime == now && !r.transport.endReached && r.transport.lastPosition == p
      && r.requests == s.requests + [SeekExact(p)]
      && 0.0 <= p && (s.transport.duration >= 0.1 ==> p <= s.transport.duration - 0.1)
      && (0.0 <= pos <= s.transport.duration - 0.1 ==> p == pos)
      && (pos < 0.0 ==> p == 0.0)
      && (s.transport.duration >= 0.1 && pos > s.transport.duration - 0.1 ==> p == s.transport.duration - 0.1)
  {
  }

  // ------------------------------------------------------ the end and loop

  /** The safe end position lies in [0.95 * duration, duration), two frames before the end when that is later. */
  lemma SafeEndBounds(duration: real, fps: real)
    requires duration > 0.0
    ensures var p := SafeEndPosition(duration, fps);
            0.0 <= p && duration * 0.95 <= p < duration
    ensures fps > 0.0 && duration - 2.0 / fps >= duration * 0.95 ==> SafeEndPosition(duration, fps) == duration - 2.0 / fps
  {
    if fps > 0.0 {
      assert 2.0 / fps > 0.0;
    }
  }

  /** `handleEndOfVideo` is idempotent: a second run changes nothing. */
  lemma EndOfVideoIdempotent(s: Session)
    ensures EndOfVideo(EndOfVideo(s)) == EndOfVideo(s)
  {
  }

  /**
   * The first `handleEndOfVideo` pauses and sets the end flag; with a known
   * duration it parks at the safe end position and asks mpv to pause there;
   * it schedules the loop restart exactly when looping is on.
   */
  lemma EndOfVideoEffect(s: Session)
    requires !s.transport.endReached
    ensures var r := EndOfVideo(s);
            && r.transport.endReached && r.transport.pause
            && s.requests <= r.requests
            && r.media == s.media && r.code == s.code
    ensures var r := EndOfVideo(s);
            var d := s.transport.duration;
            d > 0.0 ==>
              && r.transport.position == SafeEndPosition(d, s.transport.fps)
              && r.transport.lastPosition == r.transport.position
              && d * 0.95 <= r.transport.position < d
              && r.requests[|r.requests| - 2..] == [SetPause(true), SetTimePos(r.transport.position)]
              && r.scheduled == s.scheduled + (if s.transport.loopEnabled then [LoopRewindTimer] else [])
    ensures var r := EndOfVideo(s);
            s.transport.duration <= 0.0 ==>
              r.transport.position == s.transport.position && r.scheduled == s.scheduled
  {
    var r := EndOfVideo(s);
    if s.transport.duration > 0.0 {
      SafeEndBounds(s.transport.duration, s.transport.fps);
      var pauseRequest := if s.transport.pause then [] else [SetPause(true)];
      var tail := [SetPause(true), SetTimePos(r.transport.position)];
      assert r.requests == s.requests + pauseRequest + tail;
      assert r.requests[|r.requests| - 2..] == tail;
    }
  }

  /**
   * With looping on, the restart is two later steps: the first rewinds to 0
   * and stays paused at the end, the second plays again and clears the flag.
   */
  lemma LoopRestart(s: Session)
    requires !s.transport.endReached && s.transport.duration > 0.0 && s.transport.loopEnabled
    ensures var e := EndOfVideo(s);
            var w := LoopRewind(e);
            var r := LoopResume(w);
            && e.scheduled == s.scheduled + [LoopRewindTimer]
            && w.transport.position == 0.0 && w.transport.pause && w.transport.endReached
            && w.scheduled == e.scheduled + [LoopResumeTimer]
            && r.transport.position == 0.0 && !r.transport.pause && !r.transport.endReached
            && r.requests == e.requests + [SetPause(true), SetTimePos(0.0), SetPause(false)]
  {
    EndOfVideoEffect(s);
  }

  /** Without looping, the end is final: nothing is scheduled. */
  lemma NoLoopNoRestart(s: Session)
    requires !s.transport.endReached && !s.transport.loopEnabled
    ensures EndOfVideo(s).scheduled == s.scheduled
  {
  }

  // ---------------------------------------------------------------- pause

  /** `playPause` twice restores the play state, having asked mpv for both changes. */
  lemma TogglePauseTwice(s: Session)
    ensures TogglePause(TogglePause(s)).transport == s.transport
    ensures TogglePause(TogglePause(s)).requests
            == s.requests + [SetPause(!s.transport.pause), SetPause(s.transport.pause)]
  {
  }

  /** `setLoopEnabled` with the current value asks nothing; setting twice is setting once. */
  lemma SetLoopIdempotent(s: Session, enabled: bool)
    ensures SetLoopStep(SetLoopStep(s, enabled), enabled) == SetLoopStep(s, enabled)
    ensures SetLoopStep(s, enabled).transport.loopEnabled == enabled
    ensures s.transport.loopEnabled == enabled ==> SetLoopStep(s, enabled) == s
  {
  }

  // ------------------------------------------------------------ time code

  /**
   * `fetchEmbeddedTimecode` takes the first tag with text, in the order
   * chapter SMPTE, file metadata, reel; the empty text only when none has any.
   */
  lemma FetchedTimecodePriority(tags: EmbeddedTags)
    ensures var r := FetchedTimecode(tags);
            var has := (o: Option<string>) => o.Some? && o.value != [];
            && (r == [] <==> !has(tags.smpte) && !has(tags.metadata) && !has(tags.reel))
            && (has(tags.smpte) ==> r == tags.smpte.value)
            && (!has(tags.smpte) && has(tags.metadata) ==> r == tags.metadata.value)
            && (!has(tags.smpte) && !has(tags.metadata) && has(tags.reel) ==> r == tags.reel.value)
  {
  }

  /** `updateTimecode` only ever writes the text and the embedded time code. */
  lemma UpdateTimecodeKeepsSettings(t: Transport, c: TimecodeState, tags: EmbeddedTags)
    ensures UpdateTimecode(t, c, tags).(text := c.text, embedded := c.embedded) == c
    ensures t.fps <= 0.0 || t.position < 0.0 ==> UpdateTimecode(t, c, tags) == c
  {
  }

  /** An embedded time code found by a positive source is kept, and the computed text left as it was. */
  lemma EmbeddedSourceWins(t: Transport, c: TimecodeState, tags: EmbeddedTags)
    requires t.fps > 0.0 && t.position >= 0.0 && !(c.useEmbedded && c.embedded != [])
    requires c.source > 0 && FetchedTimecode(tags) != []
    ensures UpdateTimecode(t, c, tags) == c.(embedded := FetchedTimecode(tags))
  {
  }

  /**
   * The computed SMPTE text at a whole frame rate reads back, through
   * `timecodeToFrame`, as the labelled frame.
   */
  lemma ShownSmpteReadsBack(t: Transport, c: TimecodeState, tags: EmbeddedTags, n: int)
    requires n >= 1 && t.fps == n as real && t.position >= 0.0
    requires c.format == 0 && c.source == 0 && !(c.useEmbedded && c.embedded != [])
    requires -IntMax <= LabelledFrame(t, c) <= IntMax
    ensures MpvTimecodeToFrame(UpdateTimecode(t, c, tags).text, t.fps) == LabelledFrame(t, c)
  {
    NonDropRoundTrip(LabelledFrame(t, c), n, c.pattern, c.format, c.pattern);
  }

  /** The computed frames-only text reads back as the labelled frame at any rate. */
  lemma ShownFramesReadBack(t: Transport, c: TimecodeState, tags: EmbeddedTags)
    requires t.fps > 0.0 && t.position >= 0.0
    requires c.format == 3 && c.source == 0 && !(c.useEmbedded && c.embedded != [])
    requires InInt32(LabelledFrame(t, c))
    ensures MpvTimecodeToFrame(UpdateTimecode(t, c, tags).text, t.fps) == LabelledFrame(t, c)
  {
    FramesOnlyRoundTrip(LabelledFrame(t, c), c.pattern, c.format, c.pattern, t.fps);
  }

  /**
   * The time-code setters take a value once: a second call with the same
   * value changes nothing, and an out-of-range format or source, or an
   * empty pattern, is refused.
   */
  lemma SettersIdempotent(t: Transport, c: TimecodeState, tags: EmbeddedTags, format: int, offset: int,
                          pattern: string, source: int, use: bool)
    ensures SetFormatStep(t, SetFormatStep(t, c, format, tags), format, tags) == SetFormatStep(t, c, format, tags)
    ensures !(0 <= format <= 4) ==> SetFormatStep(t, c, format, tags) == c
    ensures SetOffsetStep(t, SetOffsetStep(t, c, offset, tags), offset, tags) == SetOffsetStep(t, c, offset, tags)
    ensures SetPatternStep(t, SetPatternStep(t, c, pattern, tags), pattern, tags) == SetPatternStep(t, c, pattern, tags)
    ensures pattern == [] ==> SetPatternStep(t, c, pattern, tags) == c
    ensures SetSourceStep(t, SetSourceStep(t, c, source, tags), source, tags) == SetSourceStep(t, c, source, tags)
    ensures !(0 <= source <= 3) ==> SetSourceStep(t, c, source, tags) == c
    ensures SetUseEmbeddedStep(t, SetUseEmbeddedStep(t, c, use, tags), use, tags) == SetUseEmbeddedStep(t, c, use, tags)
  {
    UpdateTimecodeKeepsSettings(t, c.(format := format), tags);
    UpdateTimecodeKeepsSettings(t, c.(offset := offset), tags);
    UpdateTimecodeKeepsSettings(t, c.(pattern := pattern), tags);
    UpdateTimecodeKeepsSettings(t, c.(source := source), tags);
    UpdateTimecodeKeepsSettings(t, c.(useEmbedded := false), tags);
  }

  /** `setOneBasedFrameNumbers` twice is once, and changes nothing but the numbering and the count. */
  lemma SetOneBasedIdempotent(t: Transport, m: MediaInfo, oneBased: bool, env: Environment)
    ensures SetOneBasedStep(t, SetOneBasedStep(t, m, oneBased, env), oneBased, env) == SetOneBasedStep(t, m, oneBased, env)
    ensures SetOneBasedStep(t, m, oneBased, env).oneBased == oneBased
    ensures SetOneBasedStep(t, m, oneBased, env).(oneBased := m.oneBased, frameCount := m.frameCount) == m
  {
  }

  /** Frame numbers shown to the user and used inside convert back and forth in both numbering modes. */
  lemma NumberingRoundTrip(oneBased: bool, x: int)
    ensures InternalFrame(oneBased, DisplayFrame(oneBased, x)) == x
    ensures DisplayFrame(oneBased, InternalFrame(oneBased, x)) == x
    ensures DisplayFrame(true, x) == x + 1 && DisplayFrame(false, x) == x
  {
  }

  // -------------------------------------------------------------- finding

  /**
   * As written, an `eof-reached` event sets the end flag before the deferred
   * `handleEndOfVideo` runs, and that handler then returns at once: the
   * player is not paused, not parked at the safe end position, and a loop
   * is never restarted.
   */
  lemma EofThenEndIsLost(s: Session)
    requires !s.transport.endReached
    ensures var a := EofStep(s, Some(true));
            && a.scheduled == s.scheduled + [EndOfVideoTimer]
            && EndOfVideo(a) == a
            && EndOfVideo(a).transport.position == s.transport.position
            && EndOfVideo(a).transport.pause == s.transport.pause
            && EndOfVideo(a).scheduled == s.scheduled + [EndOfVideoTimer]
  {
  }

  /** A concrete case: a looping, playing 10 s video at 25 fps reaching its end is never restarted. */
  lemma EofLoopLostExample()
    ensures var t := Transport(false, 9.99, 9.0, 10.0, 25.0, false, true, 0);
            var s := Session(t, MediaInfo("a.mp4", "", 250, true, false),
                             TimecodeState("", 0, false, "", 0, "", 0), [], []);
            var r := EndOfVideo(EofStep(s, Some(true)));
            r.scheduled == [EndOfVideoTimer] && !r.transport.pause && r.transport.position == 9.99
  {
  }

  /**
   * With the flag left to `handleEndOfVideo`, the end of the file is
   * handled: paused, parked at the safe end position, and a loop restart
   * scheduled exactly when looping is on.
   */
  lemma EofCorrectedEnds(s: Session)
    requires !s.transport.endReached
    ensures var a := EofStepCorrected(s, Some(true));
            var r := EndOfVideo(a);
            && a.scheduled == s.scheduled + [EndOfVideoTimer]
            && r.transport.endReached && r.transport.pause
            && (s.transport.duration > 0.0 ==>
                  && r.transport.position == SafeEndPosition(s.transport.duration, s.transport.fps)
                  && r.scheduled == s.scheduled + [EndOfVideoTimer]
                                    + (if s.transport.loopEnabled then [LoopRewindTimer] else []))
  {
    EndOfVideoEffect(EofStepCorrected(s, Some(true)));
  }
}

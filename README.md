# A verified model of the HEIMLICH-STUDIO Player's playback core

The player is a Qt/QML video player built for review work. It shows frame
numbers and SMPTE time codes and seeks frame-accurately. It has two playback
back ends:

- an mpv item (`MpvObject`), with a timeline synchroniser (`TimelineSync`);
- an FFmpeg engine (`FFmpegEngine`) that drives a video and an audio decode
  worker, wrapped by a QML item (`FFmpegObject`), plus an earlier version of
  that item.

This project models the sequential logic under the GUI and the rendering
code, and proves what that logic promises. Each part takes the form of the
code it models:

- **Pure code is written as functions.** This covers the time-code utilities
  (`Timecode`), mpv's own time-code conversions (`MpvTimecode`), and the
  numeric and string conventions of C++ and Qt that they rely on (`CppMath`
  for truncating division, `static_cast<int>`, `qRound` and `qBound`;
  `QtText` for `QString::number`, `arg`, `toInt` and `replace`). Round trips,
  validity and bounds are proved about them in `TimecodeLemmas` and
  `MpvTimecodeLemmas`.
  `CppMath.Max` and `MaxReal`, and `CppMath.Bound` and `BoundReal`, are the
  `int` and the `double` instances of the templates `std::max`/`qMax` and
  `qBound`. They are one definition at two types, which Dafny keeps apart.
- **Objects whose methods update fields are written as classes.** These are
  `TimelineSync.TimelineSync`, `Mpv.MpvObject`,
  `VideoDecoder.VideoDecoder`, `AudioDecoder.AudioDecoder`,
  `Engine.FFmpegEngine`, `FrontEnd.FFmpegObject` and
  `LegacyFrontEnd.FFmpegObject`.
  - The methods of `Mpv.MpvObject`, `LegacyFrontEnd.FFmpegObject` and, for
    the time code, `FrontEnd.FFmpegObject` are proved to move their fields
    exactly as a step function on plain values. The properties are proved
    about those step functions: idempotence, the safe end position, the
    two-step loop restart, the priority of the frame-count sources,
    threshold gates and clamps.
  - The methods of `TimelineSync.TimelineSync`, the two decoders,
    `Engine.FFmpegEngine` and the rest of `FrontEnd.FFmpegObject` state
    their new fields directly against the old ones (`old(...)`), together
    with the invariant each class keeps.
  - Loops are kept as loops: the event drain, the queue drains, the index
    build, decode-forward and the hardware search.
- **What lies outside the program becomes inputs or logs.** This covers
  libmpv, libav*, threads, timers and the wall clock.
  - Each answer from outside is a method parameter.
  - Each request an object makes of the outside is appended to a log field
    (`requests`). The engine and both FFmpeg items also log the Qt signals
    they emit, with their arguments (`signals`, `notices`); the mpv object
    and the timeline synchroniser keep no signal log, and their signals are
    not modelled.
  - Each single-shot timer is an entry in `scheduled`, whose method is called
    later.

`Media` holds the packets, frames and stream facts shared by the FFmpeg
parts. It also holds the one definition of the bounded drop-oldest packet
queue that both decode workers keep: 100 packets for video, 200 for audio.

Positions and frame rates are exact `real`s, not IEEE doubles. Integers are
unbounded, and a contract that needs C++ `int` range says so in its
`requires`.

Two facts about the code as written are proved rather than corrected,
because neither is evidently unintended:

- **The shared drop-frame helpers are not inverse at 29.97 fps.** Frame 1799
  prints as `00:00:59;29`, which reads back as 1801
  (`TimecodeLemmas.DropFrameRoundTripBreaks`).
- **mpv's drop-frame text does not read back as its frame.** The text
  carries the plain split of the frame, while the parser subtracts the
  dropped labels (`MpvTimecodeLemmas.DropTextReadsBackShifted`).

## Model

| member | source | states |
|---|---|---|
| `Timecode.FormatOf` | src/utils/TimecodeUtils.h:15-21 | the five listed time code formats are the codes 0..4; any other code stays unlisted and keeps its value |
| `Timecode.Nominal` | src/utils/TimecodeUtils.cpp:38 | the rounded frame rate is at least 1 from 0.5 fps up and 0 below |
| `Timecode.DropFrameToFrame` | src/utils/TimecodeUtils.cpp:361-383 | converting a drop-frame label back to a frame never lowers a non-negative label |
| `Timecode.FindSmpte` | src/utils/TimecodeUtils.cpp:236-240 | the unanchored SMPTE expression match is the leftmost position where eleven characters match, and no match means no position matches |
| `Timecode.FindHmsms` | src/utils/TimecodeUtils.cpp:242-246 | the same, for the twelve-character HH:MM:SS.mmm expression |
| `Timecode.SmpteGroups` | src/utils/TimecodeUtils.cpp:133-142 | the four captured SMPTE groups are two-digit values below 100 |
| `Timecode.HmsmsGroups` | src/utils/TimecodeUtils.cpp:159-167 | the captured HH:MM:SS.mmm groups are below 100, the milliseconds below 1000 |
| `Timecode.Split` | src/utils/TimecodeUtils.cpp:65-73 | the hours, minutes, seconds and fraction of a non-negative time are in range and add back up to the time |
| `Timecode.FrameToTimecode` | src/utils/TimecodeUtils.cpp:7-25 | without a positive frame rate the text is "00:00:00:00" |
| `Timecode.SMPTEToFrame` | src/utils/TimecodeUtils.cpp:128-152 | invalid text or a rate that is not positive reads as frame 0; every result is non-negative |
| `Timecode.ClockFrames` | src/utils/TimecodeUtils.cpp:144-145 | a clock with non-negative fields names a non-negative frame count |
| `Timecode.HMSMSToFrame` | src/utils/TimecodeUtils.cpp:154-172 | invalid text or a rate that is not positive reads as frame 0; every result is non-negative |
| `Timecode.TimecodeToFrame` | src/utils/TimecodeUtils.cpp:107-126 | a rate that is not positive gives frame 0; every format but frames-only gives a non-negative frame |
| `Timecode.DetectFormat` | src/utils/TimecodeUtils.cpp:248-259 | detection always answers one of the five listed formats |
| `Timecode.ExtractEmbeddedTimecode` | src/utils/TimecodeUtils.cpp:190-204 | the value of the frame's first metadata entry whose key is "timecode" in any ASCII letter case, and empty without a frame, without metadata or without such an entry |
| `Timecode.DictGet` | src/utils/TimecodeUtils.cpp:198 | `av_dict_get` with flags 0 finds nothing exactly when no key equals the one asked for up to ASCII case, and otherwise the first entry whose key does |
| `TimecodeLemmas.SplitFrames` | src/utils/TimecodeUtils.cpp:40-51 | below 100 hours the hours, minutes, seconds and frames `frameToSMPTE` computes are in range and add back up to the frame count |
| `TimecodeLemmas.SmpteTextReads` | src/utils/TimecodeUtils.cpp:53-58 | two-digit SMPTE text is valid, matches at its start, reads back field by field, contains ';' exactly for the drop-frame separator, and is not HH:MM:SS.mmm |
| `TimecodeLemmas.HmsmsTextReads` | src/utils/TimecodeUtils.cpp:75-80 | HH:MM:SS.mmm text with fields in range is valid, is not SMPTE, and reads back field by field |
| `TimecodeLemmas.FrameToDropFrameBounds` | src/utils/TimecodeUtils.cpp:337-359 | the drop-frame adjustment keeps a non-negative frame within `[0, frame]` |
| `TimecodeLemmas.SmpteFields` | src/utils/TimecodeUtils.cpp:40-51 | the fields of a total below 100 hours are in range and recompose the total |
| `TimecodeLemmas.FrameToSMPTEText` | src/utils/TimecodeUtils.cpp:27-59 | `frameToSMPTE` writes the fields of the (drop-frame adjusted) total with ';' or ':' |
| `TimecodeLemmas.SMPTEToFrameOfText` | src/utils/TimecodeUtils.cpp:128-152 | two-digit SMPTE text reads as its clock's frame count, passed through `dropFrameToFrame` for drop-frame text at an NTSC rate |
| `TimecodeLemmas.FrameToSMPTEIsValid` | src/utils/TimecodeUtils.cpp:27-59 | below 100 hours the SMPTE text is valid, has ';' exactly for drop-frame, minutes and seconds below 60, frames below the nominal rate, and is detected as the form written |
| `TimecodeLemmas.SMPTERoundTrip` | src/utils/TimecodeUtils.cpp:27-59 | reading back the SMPTE text of a frame below 100 hours gives the frame, for every nominal rate 1..100, except drop-frame text at 29.97 |
| `TimecodeLemmas.SMPTERoundTripText` | src/utils/TimecodeUtils.cpp:128-152 | the same round trip, stated through the written text |
| `TimecodeLemmas.DropFrameRoundTripBreaks` | src/utils/TimecodeUtils.cpp:337-383 | at 29.97 fps frame 1799 is written "00:00:59;29", which reads back as 1801 |
| `TimecodeLemmas.DropFrameIdentityOffNtsc` | src/utils/TimecodeUtils.cpp:339-341 | off the 29.97 family both drop-frame helpers leave the number alone |
| `TimecodeLemmas.FrameToDropFrameFixedPoints` | src/utils/TimecodeUtils.cpp:337-359 | at 29.97 a frame keeps its number exactly when it is within the first minute |
| `TimecodeLemmas.DropFrameToFrameFixedPoints` | src/utils/TimecodeUtils.cpp:361-383 | at 29.97 a label never moves down, and stays exactly when it is among the first 1798 |
| `TimecodeLemmas.DropFrameTenMinuteShift` | src/utils/TimecodeUtils.cpp:337-383 | ten minutes of frames (18000) are ten minutes of labels (17982), in both directions |
| `TimecodeLemmas.FrameToHMSMSIsValid` | src/utils/TimecodeUtils.cpp:61-81 | below 100 hours the HH:MM:SS.mmm text is valid, is detected as such, and shows the split of the time with the milliseconds truncated |
| `TimecodeLemmas.Millis` | src/utils/TimecodeUtils.cpp:72-74 | the clock shown for a split keeps its hours, minutes and seconds, and its milliseconds are the fraction truncated |
| `TimecodeLemmas.SplitTextReadsBack` | src/utils/TimecodeUtils.cpp:154-172 | reading the HH:MM:SS.mmm text of a split gives the frame under the time it shows |
| `TimecodeLemmas.ShownTime` | src/utils/TimecodeUtils.cpp:71-80 | the time the text shows is at most a millisecond before the split's time |
| `TimecodeLemmas.HMSMSRoundTrip` | src/utils/TimecodeUtils.cpp:61-81 | reading back the HH:MM:SS.mmm text of a frame loses at most one frame, up to 1000 fps |
| `TimecodeLemmas.BackWithinOneFrame` | src/utils/TimecodeUtils.cpp:168-171 | a time at most a millisecond early lands on the frame or the one before it |
| `TimecodeLemmas.CustomDefaultIsHMSMS` | src/utils/TimecodeUtils.cpp:83-105 | the default pattern "%H:%M:%S.%f" writes the same text as HH:MM:SS.mmm |
| `TimecodeLemmas.FillDefaultPattern` | src/utils/TimecodeUtils.cpp:97-104 | the default pattern filled in is the HH:MM:SS.mmm text of the split |
| `TimecodeLemmas.FillNext` | src/utils/TimecodeUtils.cpp:97-101 | filling a `%` key whose letter does not occur later replaces only that occurrence |
| `TimecodeLemmas.FramesOnlyRoundTrip` | src/utils/TimecodeUtils.cpp:19-20 | a plain frame number reads back exactly for every `int` frame |
| `TimecodeLemmas.DetectFramesOnlyExactly` | src/utils/TimecodeUtils.cpp:254-256 | text is detected as a frame number exactly when it is the shortest decimal spelling of a value in `[0, INT_MAX]` |
| `TimecodeLemmas.FormatParseSmpte` | src/utils/TimecodeUtils.cpp:261-334 | SMPTE text of two-digit fields parses back to the same fields |
| `TimecodeLemmas.FormatParseFramesOnly` | src/utils/TimecodeUtils.cpp:261-334 | frame-number text at 30 fps parses back to the same fields while they are in range and the total fits in an `int` |
| `TimecodeLemmas.FormatParseHmsms` | src/utils/TimecodeUtils.cpp:261-334 | HH:MM:SS.mmm text keeps hours, minutes and seconds; frames come back at most one lower, and exactly when they are a multiple of 3 |
| `TimecodeLemmas.FrameToTimecodeIsValid` | src/utils/TimecodeUtils.cpp:7-25 | below 100 hours every listed format writes text its own validity check accepts and that is detected as that format (the default custom pattern as HH:MM:SS.mmm) |
| `TimecodeLemmas.NumberIsFramesOnly` | src/utils/TimecodeUtils.cpp:248-259 | a frame number's text reads back as the number and is detected as frames-only |
| `TimecodeLemmas.CustomIsValid` | src/utils/TimecodeUtils.cpp:83-105 | the default pattern writes non-empty text detected as HH:MM:SS.mmm |
| `TimecodeLemmas.ParseWithoutMatch` | src/utils/TimecodeUtils.cpp:293-334 | without a match of the format's expression every parsed field stays 0 |
| `Timecode.IsDropFrame` | src/utils/TimecodeUtils.cpp:211-217 | a drop-frame rate lies between 23.876 and 60.04, and 23.976, 29.97 and 59.94 are drop-frame rates |
| `Timecode.FrameToDropFrame` | src/utils/TimecodeUtils.cpp:337-359 | off 29.97 the frame is kept, within the first minute it is kept, and a non-negative frame is never raised |
| `Timecode.FrameToSMPTE` | src/utils/TimecodeUtils.cpp:27-59 | without a positive rate, or with one that rounds to 0, the text is "00:00:00:00"; the text is always at least eleven characters |
| `Timecode.FrameToHMSMS` | src/utils/TimecodeUtils.cpp:61-81 | without a positive rate the text is "00:00:00.000"; the text is always at least twelve characters |
| `Timecode.SplitText` | src/utils/TimecodeUtils.cpp:75-80 | the HH:MM:SS.mmm text of a split is at least twelve characters |
| `Timecode.FrameToCustom` | src/utils/TimecodeUtils.cpp:83-105 | with a rate that is not positive or a negative frame the pattern is returned as it is, and so is a pattern without any of the field letters |
| `Timecode.FillPattern` | src/utils/TimecodeUtils.cpp:97-104 | a pattern without the letters H, M, S, f and F comes back unchanged |
| `Timecode.FillFields` | src/utils/TimecodeUtils.cpp:97-104 | the five replacements leave a pattern without those letters unchanged |
| `Timecode.IsValidSMPTE` | src/utils/TimecodeUtils.cpp:236-240 | valid SMPTE text is matched by the unanchored expression at its first character |
| `Timecode.IsValidHMSMS` | src/utils/TimecodeUtils.cpp:242-246 | valid HH:MM:SS.mmm text is matched at its first character and is not valid SMPTE |
| `Timecode.IsValidTimecode` | src/utils/TimecodeUtils.cpp:219-234 | an unlisted format is never valid; valid SMPTE text is detected as one of the SMPTE formats, valid HH:MM:SS.mmm text as HH:MM:SS.mmm |
| `Timecode.FormatTimecode` | src/utils/TimecodeUtils.cpp:261-291 | every format but frames-only writes at least eleven characters, HH:MM:SS.mmm at least twelve |
| `Timecode.ParseTimecode` | src/utils/TimecodeUtils.cpp:293-334 | custom and unlisted formats leave all four fields 0; the expression formats give fields below 100; frames-only text splits its value at 30 fps into fields that add back up to it |
| `Timecode.ParseSmpte` | src/utils/TimecodeUtils.cpp:298-307 | the parsed SMPTE fields are two-digit values |
| `Timecode.HasEmbeddedTimecode` | src/utils/TimecodeUtils.cpp:206-209 | true exactly when there is a frame with metadata whose first "timecode" entry, in any letter case, is non-empty |
| `TimecodeLemmas.TimecodeKeySpellings` | src/utils/TimecodeUtils.cpp:198 | "TIMECODE" and "Timecode" are the key "timecode" to the lookup; "timecodes" and "time_code" are not |
| `TimecodeLemmas.EmbeddedTimecodeAnyCase` | src/utils/TimecodeUtils.cpp:190-209 | an entry keyed "timecode" in any letter case, with no earlier such entry, gives the time code, and the frame has one exactly when its value is non-empty |
| `TimecodeLemmas.UpperCaseTagExample` | src/utils/TimecodeUtils.cpp:198-201 | a frame tagged "TIMECODE" carries that value; of a "Timecode" and a later "timecode" entry the first is taken |
| `Timecode.FrameAt` | src/utils/TimecodeUtils.cpp:178 | a non-negative time at a non-negative rate lies at a non-negative frame |
| `Timecode.PositionToTimecode` | src/utils/TimecodeUtils.cpp:174-180 | without a positive rate the text is "00:00:00:00"; in frames-only format it is the number of the frame under the position |
| `Timecode.TimecodeToPosition` | src/utils/TimecodeUtils.cpp:182-188 | without a positive rate the position is 0; every format but frames-only gives a non-negative position |
| `TimecodeLemmas.PositionRoundTripFramesOnly` | src/utils/TimecodeUtils.cpp:174-188 | in frames-only format a position's text reads back as the start of the frame under it, which is never after the position and less than one frame before it |
| `TimecodeLemmas.FrameUnder` | src/utils/TimecodeUtils.cpp:178 | the frame at a time is the whole part of the time in frames |
| `TimecodeLemmas.FramesOnlyTextReadsBack` | src/utils/TimecodeUtils.cpp:182-188 | the frames-only text of a frame reads back as the frame's start time |
| `TimecodeLemmas.StartOfFrame` | src/utils/TimecodeUtils.cpp:182-188 | a frame under a position starts at most one frame before it |
| `TimelineSync.FrameFromPosition` | src/timelinesync.cpp:384-389 | the frame under a position is the nearest frame clamped to the frames of the video, 0 without a positive rate |
| `TimelineSync.PositionFromFrame` | src/timelinesync.cpp:392-397 | a frame's position is its start time (position × fps = frame), 0 without a positive rate |
| `TimelineSync.FramePositionRoundTrip` | src/timelinesync.cpp:384-397 | a frame of the video is found again from its start time |
| `TimelineSync.SyncFrameToTimecode` | src/timelinesync.cpp:400-419 | below 1 fps the synchroniser writes "00:00:00:00" |
| `TimelineSync.FindColonSmpte` | src/timelinesync.cpp:427-429 | the leftmost match of the colon-only SMPTE expression, and no match means no position matches |
| `TimelineSync.SyncTimecodeToFrame` | src/timelinesync.cpp:422-444 | unreadable text or a rate that is not positive gives frame 0; every result lies within the frames of the video |
| `TimelineSync.SyncTimecodeRoundTrip` | src/timelinesync.cpp:400-444 | at a whole frame rate the synchroniser's own time code of a frame below 100 hours reads back as that frame |
| `TimelineSync.SecondsClock` | src/timelinesync.cpp:404-413 | the fields written for a frame are its whole hours, minutes, seconds and `frame % fps`, each in range |
| `TimelineSync.ChooseFrameCount` | src/timelinesync.cpp:352-381 | the player's estimate when positive, else its counted frames when positive, else `ceil(duration × fps)`, which is positive for a positive duration and rate |
| `TimelineSync.CeilFrames` | src/timelinesync.cpp:369-371 | the fallback frame count is the ceiling of duration × fps, positive when both are |
| `TimelineSync.RateOr` | src/timelinesync.cpp:55-63 | the player's `estimated-vf-fps` when positive, otherwise the fallback |
| `TimelineSync.TimelineSync.constructor` | src/timelinesync.cpp:5-20 | no player, 24 fps, every count and flag at its initial value, automatic sync on |
| `TimelineSync.TimelineSync.CalculateTotalFrames` | src/timelinesync.cpp:352-381 | with a player, a duration and a rate the frame count is the chosen one; otherwise it is kept |
| `TimelineSync.TimelineSync.UpdateFrameInfo` | src/timelinesync.cpp:337-349 | with a duration and a rate the current frame is the frame under the position |
| `TimelineSync.TimelineSync.ConnectMpv` | src/timelinesync.cpp:31-74 | a null player changes nothing; otherwise the position, duration, playing state, rate, frame count and frame are taken from the player and the sync timer runs |
| `TimelineSync.TimelineSync.Adopt` | src/timelinesync.cpp:51-63 | the player's position, duration, playing state and rate are copied |
| `TimelineSync.TimelineSync.SeekToPosition` | src/timelinesync.cpp:92-131 | without a player or a duration nothing happens; otherwise the target is clamped to `[0, duration − 0.1]`, a playing player is paused first, the seek is requested, and position and frame show the target at once |
| `TimelineSync.TimelineSync.SeekToFrame` | src/timelinesync.cpp:77-89 | the frame is clamped and its start time sought; the frame shown is the nearest frame of the target clamped to the video, and a frame inside the seekable range is shown exactly |
| `TimelineSync.TimelineSync.BeginDragging` | src/timelinesync.cpp:134-141 | dragging starts and automatic sync stops |
| `TimelineSync.TimelineSync.EndDragging` | src/timelinesync.cpp:144-157 | the drag ends with an exact seek to the clamped start time of the frame shown, after a pause when playing; the new frame is the nearest frame of that time clamped to the video, the same frame when it lies inside the seekable range; automatic sync resumes |
| `TimelineSync.TimelineSync.SetIsDragging` | src/timelinesync.cpp:186-198 | the same value changes nothing; starting a drag stops automatic sync and moves nothing; ending one seeks exactly to the frame shown, with the new position, requests and frame `endDragging` gives, and resumes automatic sync |
| `TimelineSync.TimelineSync.ForceUpdate` | src/timelinesync.cpp:160-183 | with a player, the position, duration, rate, frame count and frame are read again |
| `TimelineSync.TimelineSync.OnMpvPositionChanged` | src/timelinesync.cpp:201-216 | ignored while dragging or with sync off; otherwise a change above 10⁻⁵ s is taken and the frame follows |
| `TimelineSync.TimelineSync.OnMpvDurationChanged` | src/timelinesync.cpp:219-228 | a new positive duration recomputes the frame count |
| `TimelineSync.TimelineSync.OnMpvPlayingChanged` | src/timelinesync.cpp:231-239 | the playing state is taken |
| `TimelineSync.TimelineSync.OnMpvPauseChanged` | src/timelinesync.cpp:242-251 | playing is the negation of paused |
| `TimelineSync.TimelineSync.HandleSyncTimer` | src/timelinesync.cpp:254-302 | nothing without a player, while dragging or while a seek settles; otherwise moves above 0.01 s are followed, the pause state is taken, and every 60th tick with a duration recomputes the frame count |
| `TimelineSync.TimelineSync.FollowPosition` | src/timelinesync.cpp:267-279 | a move above 0.01 s is taken with the frame under it; a smaller one is ignored |
| `TimelineSync.TimelineSync.FollowPause` | src/timelinesync.cpp:282-291 | a readable pause property sets the playing state |
| `TimelineSync.TimelineSync.CountTick` | src/timelinesync.cpp:294-298 | the tick counter rises, and on every 60th tick with a duration the frame count is recomputed and the counter reset |
| `TimelineSync.TimelineSync.CompleteSeek` | src/timelinesync.cpp:307-334 | the seek ends; with a player that reports `time-pos` the position and frame take it |
| `TimelineSync.TimelineSync.OnMpvEndReached` | src/timelinesync.cpp:459-484 | playback stops and, with more than three frames, the timeline moves to the third frame from the end |
| `TimelineSync.TimelineSync.OnMpvFrameCountChanged` | src/timelinesync.cpp:487-502 | only a new positive count is taken, and the current frame is pulled back inside it |
| `MpvTimecode.MpvFrameToTimecode` | src/mpvobject.cpp:1446-1536 | without a frame rate the text is `00:00:00:00`; with one, a negative frame's text starts with a minus sign |
| `MpvTimecode.FindGroups` | src/mpvobject.cpp:1554-1561 | a search that succeeds stops at a position where the four-group expression matches |
| `MpvTimecode.Match` | src/mpvobject.cpp:1561-1562 | the expression fails to match exactly when the search from the start finds nothing |
| `MpvTimecode.MpvTimecodeToFrame` | src/mpvobject.cpp:1539-1610 | 0 without a frame rate; an integer text reads as its own value; a text none of the three expressions matches reads as 0 |
| `MpvTimecodeLemmas.GroupsOfJoin` | src/mpvobject.cpp:1554-1556 | four runs of digits joined by `:`, `:` and the last separator match at the front as exactly those four groups |
| `MpvTimecodeLemmas.MatchAtFront` | src/mpvobject.cpp:1561 | a match at the front of the text is the match `QRegularExpression::match` reports |
| `MpvTimecodeLemmas.FindGroupsMissed` | src/mpvobject.cpp:1561-1562 | when the search finds nothing, no position from its start matches |
| `MpvTimecodeLemmas.FindGroupsLeftmost` | src/mpvobject.cpp:1561-1562 | the position the search finds is the leftmost match |
| `MpvTimecodeLemmas.FindGroupsNone` | src/mpvobject.cpp:1561-1562 | conversely, text that matches at no position is reported as unmatched |
| `MpvTimecodeLemmas.TwoColonsNoMatch` | src/mpvobject.cpp:1554 | text with only two colons never matches the non-drop expression, which needs three |
| `MpvTimecodeLemmas.SmpteTextNotInteger` | src/mpvobject.cpp:1546-1547 | SMPTE text is never taken for an integer by `toInt`, so it reaches the expressions |
| `MpvTimecodeLemmas.NonDropTextValue` | src/mpvobject.cpp:1561-1570 | non-drop text of `int`-sized fields reads as the whole seconds scaled by the frame rate plus the frames |
| `MpvTimecodeLemmas.DropTextValue` | src/mpvobject.cpp:1573-1591 | drop-frame text reads as the same value less the dropped labels (two per minute, except every tenth minute, at 29.97 and 30 fps) |
| `MpvTimecodeLemmas.FramesOnlyRoundTrip` | src/mpvobject.cpp:1503-1505 | the frames-only text of any 32-bit frame, negative frames included, reads back as that frame |
| `MpvTimecodeLemmas.ExactParts` | src/mpvobject.cpp:1461-1470 | at a whole frame rate the hours, minutes, seconds and frame fields are those of the integer split of the frame |
| `MpvTimecodeLemmas.NonDropTextOf` | src/mpvobject.cpp:1479-1485 | at a whole frame rate the non-drop text is the SMPTE text of the integer split |
| `MpvTimecodeLemmas.NonDropRoundTrip` | src/mpvobject.cpp:1446-1610 | at a whole frame rate the non-drop time code of every `int` frame but the most negative reads back as that frame |
| `MpvTimecodeLemmas.NegativeFormat` | src/mpvobject.cpp:1457-1458 | a negative frame's text is its magnitude's text behind a minus sign, whatever the format |
| `MpvTimecodeLemmas.NegativeText` | src/mpvobject.cpp:1550-1551 | a minus sign in front of SMPTE text negates the value it reads as |
| `MpvTimecodeLemmas.DropTextOf` | src/mpvobject.cpp:1487-1493 | the drop-frame format writes the plain integer split of the frame with a `;` before the frames |
| `MpvTimecodeLemmas.DropTextReadsBackShifted` | src/mpvobject.cpp:1487-1493 | at 30 fps the drop-frame text of a frame reads back two labels per minute not divisible by ten lower: the two conversions are not inverse for this format |
| `MpvTimecode.PartsOf` | src/mpvobject.cpp:1461-1473 | for a non-negative time the hours are non-negative, minutes and seconds below 60 and milliseconds below 1000; with a positive rate the frame field lies in `[0, fps)` |
| `MpvTimecode.FractionFrames` | src/mpvobject.cpp:1469-1470 | the frames of a part of a second lie in `[0, fps)` |
| `MpvTimecode.FractionOfRate` | src/mpvobject.cpp:1469-1470 | less than a second holds less than one second's worth of frames |
| `MpvTimecode.FormatBody` | src/mpvobject.cpp:1478-1528 | every format but frames-only and custom writes at least eleven characters; a custom pattern without field letters is returned as it is |
| `MpvTimecode.CustomText` | src/mpvobject.cpp:1507-1520 | the six replacements leave a pattern without the letters H, M, S, f, t and s unchanged |
| `MpvTimecode.Scaled` | src/mpvobject.cpp:1568 | whole seconds scaled by a non-negative rate give a non-negative frame count |
| `MpvTimecode.WholeValue` | src/mpvobject.cpp:1568 | non-negative hours, minutes and seconds groups give a non-negative frame count |
| `MpvTimecode.NonDropValue` | src/mpvobject.cpp:1561-1570 | non-negative groups at a non-negative rate give a non-negative frame |
| `MpvTimecode.DroppedLabels` | src/mpvobject.cpp:1581-1587 | no labels are dropped off 29.97 and 30 fps; at most two per minute are; below ten minutes exactly two per minute are |
| `MpvTimecode.DropValue` | src/mpvobject.cpp:1573-1591 | a drop-frame match reads as its non-drop value less the dropped labels |
| `MpvTimecode.MillisValue` | src/mpvobject.cpp:1594-1606 | zero milliseconds read as the non-drop value; non-negative groups give a non-negative frame |
| `MpvTimecode.MillisFrames` | src/mpvobject.cpp:1601-1602 | non-negative milliseconds at a non-negative rate give non-negative frames, and zero gives zero |
| `Mpv.ChosenFrameCount` | src/mpvobject.cpp:979-1103 | the frame count `updateFrameCount` settles on is never less than 1 |
| `Mpv.MpvObject.constructor` | src/mpvobject.cpp:157-265 | the object starts in the initial session: nothing loaded, unpaused, 1-based frame numbers, no requests to mpv |
| `Mpv.MpvObject.HandleMpvEvents` | src/mpvobject.cpp:307-474 | draining the queued events leaves the state `Drain` gives: each event applied in the order mpv reports it |
| `Mpv.MpvObject.ApplyOne` | src/mpvobject.cpp:317-470 | one event of the loop: property changes of `pause`, `eof-reached`, `time-pos`, `duration`, `estimated-vf-fps`, `media-title` and `filename`, and the file-loaded event |
| `Mpv.MpvObject.OnEofReached` | src/mpvobject.cpp:335-350 | as written: the object's end flag follows mpv's, and when it becomes true `handleEndOfVideo` is scheduled (the step `EofStep`, which the event loop runs) |
| `Mpv.MpvObject.OnEofReachedCorrected` | src/mpvobject.cpp:335-350 | the corrected step of the first finding: the end of the file schedules `handleEndOfVideo` and leaves the flag to it |
| `Mpv.MpvObject.OnFileLoaded` | src/mpvobject.cpp:446-468 | the file-loaded event starts the metadata timer unless it runs, resets the time code and schedules the loaded timer |
| `Mpv.MpvObject.UpdateFrameCount` | src/mpvobject.cpp:979-1103 | the new media information is the recount `CountFrames` gives; nothing else changes |
| `Mpv.MpvObject.SeekToPosition` | src/mpvobject.cpp:578-619 | the new state is the clamped exact seek of `SeekStep` |
| `Mpv.MpvObject.ResetEndReached` | src/mpvobject.cpp:919-925 | the end flag drops and nothing else changes |
| `Mpv.MpvObject.HandleEndOfVideo` | src/mpvobject.cpp:808-916 | the new state is `EndOfVideo` of the old one |
| `Mpv.MpvObject.LoopRewindStep` | src/mpvobject.cpp:870-884 | the first loop timer: back to 0, still paused |
| `Mpv.MpvObject.LoopResumeStep` | src/mpvobject.cpp:885-897 | the second loop timer: play again and clear the end flag |
| `Mpv.MpvObject.Play` | src/mpvobject.cpp:691-698 | play is `setProperty("pause", false)` |
| `Mpv.MpvObject.Pause` | src/mpvobject.cpp:701-708 | pause is `setProperty("pause", true)` |
| `Mpv.MpvObject.PlayPause` | src/mpvobject.cpp:711-732 | the pause flag is toggled through mpv |
| `Mpv.MpvObject.SetLoopEnabled` | src/mpvobject.cpp:940-950 | a changed loop flag is stored and passed on to mpv; an unchanged one asks nothing |
| `Mpv.MpvObject.FetchEmbeddedTimecode` | src/mpvobject.cpp:1404-1443 | the embedded time code becomes the first tag with text and nothing else changes |
| `Mpv.MpvObject.UpdateTimecodeStep` | src/mpvobject.cpp:1369-1401 | the time code state becomes `UpdateTimecode` of the transport and the old state |
| `Mpv.MpvObject.AfterFileLoaded` | src/mpvobject.cpp:461-466 | the loaded timer recounts the frames, then refreshes the time code |
| `Mpv.MpvObject.MetadataTimerFired` | src/mpvobject.cpp:249-252 | the metadata timer stops and nothing else changes |
| `Mpv.MpvObject.SetTimecodeFormat` | src/mpvobject.cpp:1292-1299 | formats 0 to 4 are taken and the text refreshed |
| `Mpv.MpvObject.SetUseEmbeddedTimecode` | src/mpvobject.cpp:1306-1317 | switching on fetches the embedded time code, switching off recomputes the text |
| `Mpv.MpvObject.SetTimecodeOffset` | src/mpvobject.cpp:1329-1336 | a new offset is taken and the text refreshed |
| `Mpv.MpvObject.SetCustomTimecodePattern` | src/mpvobject.cpp:1343-1352 | a non-empty pattern is taken, and applied while the custom format is shown |
| `Mpv.MpvObject.SetTimecodeSource` | src/mpvobject.cpp:1359-1366 | sources 0 to 3 are taken and the text refreshed |
| `Mpv.MpvObject.SetOneBasedFrameNumbers` | src/mpvobject.cpp:1106-1117 | a changed numbering is stored and the frames recounted |
| `Mpv.MpvObject.DisplayFrameNumber` | src/mpvobject.cpp:1126-1129 | the displayed number converts back to the internal frame it came from |
| `Mpv.MpvObject.InternalFrameNumber` | src/mpvobject.cpp:1132-1135 | the internal frame converts back to the displayed number it came from |
| `MpvLemmas.FrameCountPriority` | src/mpvobject.cpp:979-1103 | the count is the first positive of the estimated, demuxer and counted answers and `ceil(duration * fps)`, and at least 1 |
| `MpvLemmas.FrameCountSources` | src/mpvobject.cpp:979-1103 | a later source is used only when every earlier one is missing or rounds to 0 |
| `MpvLemmas.CountFramesEffect` | src/mpvobject.cpp:979-990 | without a file, while blocked or within 2 s of a seek nothing changes; otherwise only the count, and it is at least 1 |
| `MpvLemmas.EventSettled` | src/mpvobject.cpp:317-470 | one event leaves the requests, the settings and the stop position alone, only adds timers, and keeps a count of at least 1 |
| `MpvLemmas.DrainSettled` | src/mpvobject.cpp:307-474 | the same holds for a whole drain of the event queue |
| `MpvLemmas.TimePosFollows` | src/mpvobject.cpp:354-377 | a `time-pos` event always moves the position, and stamps the seek time exactly when the move is a jump of more than half a second |
| `MpvLemmas.SmallMoveIsNoSeek` | src/mpvobject.cpp:354-377 | a move of at most half a second, or one from an unknown position, is not a seek |
| `MpvLemmas.SeekClamps` | src/mpvobject.cpp:578-619 | without a duration nothing happens; otherwise the position is `pos` clamped to [0, duration - 0.1], the end flag drops and mpv is asked for an exact seek there |
| `MpvLemmas.SafeEndBounds` | src/mpvobject.cpp:842-853 | the parking position lies in [0.95 duration, duration), two frames before the end when that is later |
| `MpvLemmas.EndOfVideoIdempotent` | src/mpvobject.cpp:812-815 | a second `handleEndOfVideo` changes nothing |
| `MpvLemmas.EndOfVideoEffect` | src/mpvobject.cpp:808-916 | the first run pauses and sets the end flag; with a duration it parks at the safe position, asking mpv to pause and seek there, and schedules the restart exactly when looping |
| `MpvLemmas.LoopRestart` | src/mpvobject.cpp:868-904 | when looping, the two timers rewind to 0 paused, then play and clear the end flag |
| `MpvLemmas.NoLoopNoRestart` | src/mpvobject.cpp:867-904 | without looping nothing is scheduled |
| `MpvLemmas.TogglePauseTwice` | src/mpvobject.cpp:711-732 | `playPause` twice restores the play state, having asked mpv for both changes |
| `MpvLemmas.SetLoopIdempotent` | src/mpvobject.cpp:940-950 | setting the loop flag twice is setting it once, and the current value asks nothing |
| `MpvLemmas.FetchedTimecodePriority` | src/mpvobject.cpp:1404-1443 | the embedded time code is the first tag with text among chapter SMPTE, metadata and reel, and empty only when none has any |
| `MpvLemmas.UpdateTimecodeKeepsSettings` | src/mpvobject.cpp:1369-1401 | `updateTimecode` only writes the text and the embedded time code, and nothing without a rate or at a negative position |
| `MpvLemmas.EmbeddedSourceWins` | src/mpvobject.cpp:1385-1392 | an embedded time code found by a positive source is kept and the text left as it was |
| `MpvLemmas.ShownSmpteReadsBack` | src/mpvobject.cpp:1369-1401 | at a whole frame rate the shown non-drop time code reads back through `timecodeToFrame` as the labelled frame |
| `MpvLemmas.ShownFramesReadBack` | src/mpvobject.cpp:1369-1401 | the shown frames-only time code reads back as the labelled frame at any rate |
| `MpvLemmas.SettersIdempotent` | src/mpvobject.cpp:1292-1366 | each time-code setter called twice with one value is called once; an out-of-range format or source, or an empty pattern, is refused |
| `MpvLemmas.SetOneBasedIdempotent` | src/mpvobject.cpp:1106-1117 | setting the numbering twice is once, and only the numbering and the count change |
| `MpvLemmas.NumberingRoundTrip` | src/mpvobject.cpp:1126-1135 | display and internal frame numbers convert back and forth in both modes, one apart in 1-based mode |
| `MpvLemmas.EofThenEndIsLost` | src/mpvobject.cpp:335-350 | as written, the event sets the flag before the deferred handler, which then returns at once: no pause, no parking, no loop restart |
| `MpvLemmas.EofLoopLostExample` | src/mpvobject.cpp:335-350 | a looping 10 s video at 25 fps reaching its end keeps playing at 9.99 s and is never restarted |
| `MpvLemmas.EofCorrectedEnds` | src/mpvobject.cpp:808-916 | with the flag left to the handler the end is handled: paused, parked, and the restart scheduled when looping |
| `Mpv.CountFrames` | src/mpvobject.cpp:979-1103 | only the frame count changes; without a file, while blocked or within 2 s of a seek nothing changes, otherwise the count is at least 1 |
| `Mpv.EofStep` | src/mpvobject.cpp:335-350 | as written: the end flag becomes mpv's value, nothing but the flag and the timers changes, and `handleEndOfVideo` is scheduled exactly when the flag rises |
| `Mpv.EofStepCorrected` | src/mpvobject.cpp:335-350 | corrected: the flag is never raised by the event, mpv clearing it clears it, and `handleEndOfVideo` is scheduled exactly when mpv's flag rises |
| `Mpv.TimePosStep` | src/mpvobject.cpp:354-377 | only the position and the seek time change; the position follows `time-pos`, and the seek time is stamped exactly on a seek |
| `Mpv.SeekStep` | src/mpvobject.cpp:578-619 | without a duration nothing changes; otherwise the position is clamped into `[0, duration - 0.1]` (kept when already there), the end flag drops and an exact seek there is the one new request |
| `Mpv.SafeEndPosition` | src/mpvobject.cpp:842-853 | the parking position is non-negative and not before 95% of the duration |
| `Mpv.EndOfVideo` | src/mpvobject.cpp:808-916 | already at the end nothing changes; otherwise the end flag is set and playback paused, media, time code, loop flag and duration are kept, and with a duration the player parks at the safe position, the last request being the seek there |
| `Mpv.LoopRewind` | src/mpvobject.cpp:870-884 | the first loop timer moves to 0 with pause and end flag kept, asks mpv to pause and seek to 0, and schedules the second timer |
| `Mpv.LoopResume` | src/mpvobject.cpp:885-897 | the second loop timer plays, clears the end flag, keeps the position and asks mpv to unpause |
| `Mpv.SetPauseStep` | src/mpvobject.cpp:691-708 | only the pause flag changes, and mpv is asked for it |
| `Mpv.TogglePause` | src/mpvobject.cpp:711-732 | the pause flag is negated and that value asked of mpv, nothing else changing |
| `Mpv.SetLoopStep` | src/mpvobject.cpp:940-950 | the loop flag takes the value; mpv is asked only when it changes |
| `Mpv.FetchedTimecode` | src/mpvobject.cpp:1404-1443 | the result is empty exactly when no tag has text, and otherwise is one of the tags' texts |
| `Mpv.UpdateTimecode` | src/mpvobject.cpp:1369-1401 | without a rate, at a negative position or with an embedded time code in use nothing changes; only the text and the embedded time code can change, and a changed text is the computed time code |
| `Mpv.SetFormatStep` | src/mpvobject.cpp:1292-1299 | formats 0 to 4 are taken, any other leaves everything as it was; only the format, text and embedded time code change |
| `Mpv.SetUseEmbeddedStep` | src/mpvobject.cpp:1306-1317 | the flag takes the value; switching on fetches the embedded time code and keeps the text |
| `Mpv.SetOffsetStep` | src/mpvobject.cpp:1329-1336 | the offset is taken, and beyond it only the text and the embedded time code change |
| `Mpv.SetPatternStep` | src/mpvobject.cpp:1343-1352 | a non-empty pattern is taken; outside the custom format the text stays |
| `Mpv.SetSourceStep` | src/mpvobject.cpp:1359-1366 | sources 0 to 3 are taken, any other leaves everything as it was |
| `Mpv.SetOneBasedStep` | src/mpvobject.cpp:1106-1117 | the numbering is taken, and beyond it only the frame count changes |
| `Mpv.StateChangeStep` | src/mpvobject.cpp:741-753 | the pause flag takes the pending pause state, and nothing else changes |
| `Mpv.PauseReportUndone` | src/mpvobject.cpp:324-333 | a pause mpv reports sets the flag and restarts the state-change timer; when it fires with the pending state at its default the flag is cleared again, nothing asked of mpv |
| `Mpv.MpvObject.ProcessStateChange` | src/mpvobject.cpp:741-753 | the new state is `StateChangeStep` of the old one |
| `Media.Enqueue` | src/core/VideoDecoder.cpp:277-293 | a queue within its capacity stays within it; the new packet is last, behind the old queue, or behind all but its oldest packet when the queue was full |
| `Media.Evicted` | src/core/VideoDecoder.cpp:283-288 | a packet is freed exactly when the queue is full, and it is the oldest |
| `Media.EnqueueKeepsOrder` | src/core/AudioDecoder.cpp:207-223 | nothing is lost but the freed packet: it and the kept packets make up the old queue |
| `Media.EnqueueAllKeepsNewest` | src/core/VideoDecoder.cpp:277-293 | pushing any run of packets keeps exactly the newest of the queued and pushed packets, as many as the capacity allows, in arrival order |
| `VideoDecoder.FirstConfig` | src/core/VideoDecoder.cpp:156-163 | no pixel format is found exactly when no config of the codec is usable for the device type |
| `VideoDecoder.HardwareChoice` | src/core/VideoDecoder.cpp:137-177 | no device is chosen exactly when no listed type has both a usable config and a creatable device; a choice is a listed, creatable type with its first usable config |
| `VideoDecoder.HardwareChoiceIsFirst` | src/core/VideoDecoder.cpp:154-172 | the first type in the platform's order that can work is the one taken |
| `VideoDecoder.EvenIndexShape` | src/core/VideoDecoder.cpp:385-407 | the frame index has one entry per frame, starts at 0, never decreases and stays below the stream duration |
| `VideoDecoder.StreamFps` | src/core/VideoDecoder.cpp:86-90 | a proper frame-rate fraction gives a positive rate; otherwise the rate is left as it was |
| `VideoDecoder.StreamFrameCount` | src/core/VideoDecoder.cpp:92-98 | a known `nb_frames` is the count; without it and without a duration or rate the count is left as it was |
| `VideoDecoder.VideoDecoder.constructor` | src/core/VideoDecoder.cpp:11-29 | the decoder starts with nothing open, no hardware, an empty index and queue, stopped, at frame 0 |
| `VideoDecoder.VideoDecoder.ProcessPacket` | src/core/VideoDecoder.cpp:277-293 | the queue becomes `Enqueue` of the old one, and the freed packet is the one `Evicted` names |
| `VideoDecoder.VideoDecoder.DrainQueue` | src/core/VideoDecoder.cpp:130-134 | every queued packet is freed, oldest first, and the queue is empty |
| `VideoDecoder.VideoDecoder.Cleanup` | src/core/VideoDecoder.cpp:112-135 | the worker stops, the scaler, device and codec context are freed, and every queued packet with them |
| `VideoDecoder.VideoDecoder.Start` | src/core/VideoDecoder.cpp:179-195 | a running worker is left alone; otherwise it runs, unpaused |
| `VideoDecoder.VideoDecoder.Stop` | src/core/VideoDecoder.cpp:197-217 | a stopped worker is left alone; otherwise both flags drop |
| `VideoDecoder.VideoDecoder.Pause` | src/core/VideoDecoder.cpp:219-223 | the worker is paused |
| `VideoDecoder.VideoDecoder.Resume` | src/core/VideoDecoder.cpp:225-230 | the worker is unpaused |
| `VideoDecoder.VideoDecoder.SeekToPosition` | src/core/VideoDecoder.cpp:259-275 | the seek succeeds exactly for a non-negative position the demuxer accepts, and then records the position and the frame under it |
| `VideoDecoder.VideoDecoder.SeekToFrame` | src/core/VideoDecoder.cpp:232-257 | a frame outside the count is refused; an exact seek to an indexed frame delivers that decoded frame; any other goes through the position seek at `frame / fps` |
| `VideoDecoder.VideoDecoder.BuildFrameIndex` | src/core/VideoDecoder.cpp:385-407 | without a container or stream nothing happens; otherwise the index is the evenly spaced one |
| `VideoDecoder.VideoDecoder.DecodeToTargetFrame` | src/core/VideoDecoder.cpp:409-455 | the target is found exactly when it is among the frames decoded before the input runs out, and that frame is delivered |
| `VideoDecoder.DecodeForward` | src/core/VideoDecoder.cpp:415-452 | the decode-forward loop delivers the frame numbered `target` counting from 0 after the seek |
| `VideoDecoder.TakeFrames` | src/core/VideoDecoder.cpp:431-448 | the frames one packet yields are counted on, and the one numbered `target` is the hit |
| `VideoDecoder.VideoDecoder.InitHardwareDecoding` | src/core/VideoDecoder.cpp:137-177 | hardware decoding is on exactly when a device type can work, and then uses the first such type and its pixel format; otherwise nothing changes |
| `VideoDecoder.SearchHardware` | src/core/VideoDecoder.cpp:154-174 | the nested loops find exactly `HardwareChoice` |
| `VideoDecoder.TryDeviceType` | src/core/VideoDecoder.cpp:156-171 | a type yields the first usable config when its device can be created, nothing otherwise |
| `VideoDecoder.VideoDecoder.ConvertFrame` | src/core/VideoDecoder.cpp:457-503 | a frame is converted exactly when it is present, not already YUV420P, a scaler exists or can be created and the buffer allocates; the output keeps the source's timestamps |
| `VideoDecoder.VideoDecoder.Initialize` | src/core/VideoDecoder.cpp:36-110 | success exactly when the decoder is found, the context allocates, the parameters copy and the codec opens; then rate, count and index are those of the stream, and hardware is chosen as `HardwareChoice` says |
| `VideoDecoder.VideoDecoder.OpenCodec` | src/core/VideoDecoder.cpp:47-79 | the codec steps of `initialize` succeed exactly when all four do, cleaning up after the last two |
| `VideoDecoder.VideoDecoder.ReadStreamInfo` | src/core/VideoDecoder.cpp:86-101 | the rate, the frame count and the frame index are set from the stream |
| `VideoDecoder.EmittedKeepsTimestamps` | src/core/VideoDecoder.cpp:359-363 | the frame the decode loop emits keeps the decoded frame's timestamps, converted or not |
| `AudioDecoder.AudioDecoder.constructor` | src/core/AudioDecoder.cpp:6-19 | the decoder starts with nothing open, no resampler, empty layout and queue, stopped |
| `AudioDecoder.AudioDecoder.ProcessPacket` | src/core/AudioDecoder.cpp:207-223 | the queue becomes `Enqueue` of the old one, and the freed packet is the one `Evicted` names |
| `AudioDecoder.AudioDecoder.DrainQueue` | src/core/AudioDecoder.cpp:122-126 | every queued packet is freed, oldest first, and the queue is empty |
| `AudioDecoder.AudioDecoder.Cleanup` | src/core/AudioDecoder.cpp:109-127 | the worker stops, the resampler and codec context are freed, and every queued packet with them |
| `AudioDecoder.AudioDecoder.Start` | src/core/AudioDecoder.cpp:154-170 | a running worker is left alone; otherwise it runs, unpaused |
| `AudioDecoder.AudioDecoder.Stop` | src/core/AudioDecoder.cpp:172-192 | a stopped worker is left alone; otherwise both flags drop |
| `AudioDecoder.AudioDecoder.Pause` | src/core/AudioDecoder.cpp:194-198 | the worker is paused |
| `AudioDecoder.AudioDecoder.Resume` | src/core/AudioDecoder.cpp:200-205 | the worker is unpaused |
| `AudioDecoder.AudioDecoder.SeekToPosition` | src/core/AudioDecoder.cpp:129-152 | the seek succeeds exactly with a container, a non-negative position and a demuxer that accepts it, and then frees every queued packet; otherwise the queue is kept |
| `AudioDecoder.AudioDecoder.ResampleFrame` | src/core/AudioDecoder.cpp:301-336 | a frame is resampled exactly when there is a resampler and a frame and every allocation and the conversion succeed; the S16 output keeps the source's timestamps |
| `AudioDecoder.AudioDecoder.Initialize` | src/core/AudioDecoder.cpp:26-107 | success exactly when the codec steps succeed and, for a format other than S16, the resampler allocates and initialises; then rate, channels and layout are the stream's |
| `AudioDecoder.AudioDecoder.OpenCodec` | src/core/AudioDecoder.cpp:37-62 | the codec steps of `initialize` succeed exactly when all four do |
| `AudioDecoder.AudioDecoder.SetUpResampler` | src/core/AudioDecoder.cpp:79-97 | the resampler steps succeed exactly when it allocates and initialises |
| `VideoDecoder.HwTypes` | src/core/VideoDecoder.cpp:140-152 | each platform tries at least two distinct hardware types, CUDA last |
| `VideoDecoder.EvenIndex` | src/core/VideoDecoder.cpp:385-407 | the index has one entry per frame when the frame count and the duration are positive, and none otherwise |
| `VideoDecoder.DecodedFrames` | src/core/VideoDecoder.cpp:415-452 | every frame decode-forward can deliver came from a read that decoded it before the first failed read |
| `VideoDecoder.DecodedFrom` | src/core/VideoDecoder.cpp:415-452 | the frames still to come after read `k`: none at the end or after a failed read, the packet's frames first after a decoded one, and what follows after a skipped or rejected one |
| `Engine.Clone` | src/core/FFmpegEngine.cpp:356-357 | a clone is a new frame with the original's format and timestamps |
| `Engine.HoldVideo` | src/core/FFmpegEngine.cpp:350-360 | the held video frame is freed and a clone of the new one, with its timestamps, takes the slot; the audio slot is untouched |
| `Engine.HoldAudio` | src/core/FFmpegEngine.cpp:362-372 | the same for the audio slot |
| `Engine.HoldVideoOwns` | src/core/FFmpegEngine.cpp:350-360 | replacing the video frame keeps every clone either freed once or held in one slot |
| `Engine.HoldAudioOwns` | src/core/FFmpegEngine.cpp:362-372 | replacing the audio frame keeps the same ownership rule |
| `Engine.NoDoubleFree` | src/core/FFmpegEngine.cpp:350-372 | under the ownership rule no frame is freed twice and no freed frame is still held |
| `Engine.TimecodeAtFramesOnly` | src/core/FFmpegEngine.cpp:341-348 | with the frames-only format the engine's time code reads back as the frame under the position, which lies within one frame of it |
| `Engine.FFmpegEngine.constructor` | src/core/FFmpegEngine.cpp:11-39 | the engine starts with nothing open, stream indices -1, a stopped 16 ms timer and no frames held |
| `Engine.FFmpegEngine.Play` | src/core/FFmpegEngine.cpp:193-216 | nothing without a file or while playing; otherwise playing, unpaused, both workers started and the timer running |
| `Engine.FFmpegEngine.Pause` | src/core/FFmpegEngine.cpp:218-251 | only while playing with a file: the pause flag toggles, both workers follow it, and the timer runs exactly while unpaused |
| `Engine.FFmpegEngine.PauseWorkers` | src/core/FFmpegEngine.cpp:226-240 | each present worker is paused or resumed to match, and keeps running as it was |
| `Engine.FFmpegEngine.Stop` | src/core/FFmpegEngine.cpp:253-279 | nothing unless playing or paused; otherwise both flags drop, the timer and workers stop and the position returns to 0 |
| `Engine.FFmpegEngine.StopWorkers` | src/core/FFmpegEngine.cpp:264-271 | each present worker stops |
| `Engine.FFmpegEngine.CloseFile` | src/core/FFmpegEngine.cpp:156-191 | playback stops, the workers and the container go, and the media facts and stream indices are reset |
| `Engine.FFmpegEngine.OpenFile` | src/core/FFmpegEngine.cpp:65-154 | success exactly when the file exists, the context allocates and opens, stream information is found, there is a video stream and its worker initialises; then the media facts are the stream's and the four change signals follow; any failure leaves the engine closed |
| `Engine.FFmpegEngine.OpenContainer` | src/core/FFmpegEngine.cpp:72-107 | the container steps succeed exactly when each check passes, with the best video and audio stream indices recorded |
| `Engine.FFmpegEngine.FinishOpen` | src/core/FFmpegEngine.cpp:109-151 | the decoder steps succeed exactly when the video worker initialises, and then set and signal the media facts |
| `Engine.FFmpegEngine.StartWorkers` | src/core/FFmpegEngine.cpp:110-134 | a new video worker; when it initialises and there is an audio stream, a new audio worker kept only if it initialises too |
| `Engine.FFmpegEngine.SeekToPosition` | src/core/FFmpegEngine.cpp:281-303 | nothing without a file or outside [0, duration]; otherwise the position is set, both workers seek and the time code follows |
| `Engine.FFmpegEngine.SeekWorkers` | src/core/FFmpegEngine.cpp:289-296 | each present worker seeks, the video one recording the position and the audio one flushing its queue when the seek succeeds |
| `Engine.FFmpegEngine.SeekToFrame` | src/core/FFmpegEngine.cpp:305-311 | nothing without a positive rate; otherwise a seek to `frame / fps` seconds |
| `Engine.FFmpegEngine.SetTimecodeFormat` | src/core/FFmpegEngine.h:69 | the format code is stored |
| `Engine.FFmpegEngine.UpdateTimecode` | src/core/FFmpegEngine.cpp:341-348 | the time code becomes the text of the frame under the position, kept as it was without a rate |
| `Engine.FFmpegEngine.HandleVideoFrame` | src/core/FFmpegEngine.cpp:350-360 | the slots become `HoldVideo` of the old ones, ownership is kept, and the clone is signalled |
| `Engine.FFmpegEngine.HandleAudioFrame` | src/core/FFmpegEngine.cpp:362-372 | the slots become `HoldAudio` of the old ones, ownership is kept, and the clone is signalled |
| `Engine.FFmpegEngine.HandleEndOfStream` | src/core/FFmpegEngine.cpp:374-385 | playing and the timer stop; the pause flag, the position and the workers stay |
| `Engine.FFmpegEngine.OnPositionTimer` | src/core/FFmpegEngine.cpp:387-403 | only while playing and unpaused the position advances by 16 ms; reaching the duration clamps to it and ends the stream; the position never passes the duration |
| `Engine.FFmpegEngine.GetProperty` | src/core/FFmpegEngine.cpp:428-448 | the seven named values, and an invalid value exactly for any other name |
| `Engine.VariantToInt` | src/core/FFmpegEngine.cpp:420 | `QVariant::toInt` of the value: a real lands within 0.5 of it, a boolean is 1 exactly when true and 0 exactly when false, a text is its `int` reading or 0 |
| `Engine.FormatTextIsNumber` | src/core/FFmpegEngine.cpp:420 | a format given as its decimal text is the same format as the number |
| `Engine.TimecodeAt` | src/core/FFmpegEngine.cpp:341-348 | without a positive rate the text stays as it was; otherwise frames-only is the number of the frame under the position, and format 0 or an unlisted code its non-drop SMPTE text |
| `Engine.FFmpegEngine.SetProperty` | src/core/FFmpegEngine.cpp:417-426 | any name but "timecode-format" changes nothing; that one takes the value as the format, recomputes the time code for the position and signals it |
| `Engine.DistinctClones` | src/core/FFmpegEngine.cpp:356-369 | clones numbered by their position in the run of clones occur at most once |
| `Engine.RunLocks` | src/core/FFmpegEngine.cpp:158 | an empty run of lock steps finishes with the mutex as it was |
| `Engine.Locked` | src/core/FFmpegEngine.cpp:158 | a `QMutexLocker` takes the mutex first and releases it last |
| `Engine.RunLocksConcat` | src/core/FFmpegEngine.cpp:156-160 | running two stretches of lock steps is running the second from where the first leaves the mutex, and a stretch that waits forever stops everything after it |
| `Engine.CloseFileBlocks` | src/core/FFmpegEngine.cpp:156-160 | as written, `closeFile` takes the mutex and `stop` takes it again (line 255), so `closeFile` and everything that begins with it never return |
| `Engine.OpenFileBlocks` | src/core/FFmpegEngine.cpp:65-69 | as written, `openFile` begins with `closeFile` and so never returns, whichever way it ends |
| `Engine.CloseFileCorrectedReturns` | src/core/FFmpegEngine.cpp:156-160 | with one locker around the steps of `stop`, `closeFile` and `openFile` return and leave the mutex free |
| `FrontEnd.FollowPosition` | src/FFmpegObject.cpp:476-484 | a position more than a millisecond away is taken with the old one kept as the last position; any other leaves the mirror as it was |
| `FrontEnd.FollowPositionIdempotent` | src/FFmpegObject.cpp:476-484 | hearing the same position twice changes nothing the second time |
| `FrontEnd.FollowPositionCloses` | src/FFmpegObject.cpp:478 | after a position is heard the mirror is within a millisecond of it |
| `FrontEnd.BackStepTarget` | src/FFmpegObject.cpp:345-350 | the back-step target is never negative, never after the position, and exactly one frame back when there is a frame to go back |
| `FrontEnd.BackStepUndoesStep` | src/FFmpegObject.cpp:339-350 | a back step undoes a forward step from any position not before the start |
| `FrontEnd.LocalFile` | src/FFmpegObject.cpp:326-330 | a name that does not start with `file://` is kept as it is; a `file://` URL becomes `QUrl::toLocalFile` of it |
| `FrontEnd.ShownTimecode` | src/FFmpegObject.cpp:580-604 | an enabled, non-empty embedded time code is shown as it is |
| `FrontEnd.ShownFramesOnlyReadsBack` | src/FFmpegObject.cpp:580-604 | without an embedded time code, in the frames-only format, the shown text reads back as the frame under the position plus the offset |
| `FrontEnd.Refreshed` | src/FFmpegObject.cpp:573-578 | a recalculation changes only the shown text, and nothing without a positive rate |
| `FrontEnd.Fetched` | src/FFmpegObject.cpp:441-452 | a current frame carrying a time code replaces the embedded one; otherwise nothing changes |
| `FrontEnd.CommandRequests` | src/FFmpegObject.cpp:315-352 | at most one engine request: an open of the local file for `loadfile` with an argument, a seek for `seek` with an argument, a seek one frame on or back (not before 0) for the two step commands with a positive rate, nothing for other commands or without a rate |
| `FrontEnd.WithText` | src/FFmpegObject.cpp:523-553 | the chosen descriptive text is replaced and every other one, and the file name, is kept |
| `FrontEnd.FFmpegObject.constructor` | src/FFmpegObject.h:46-85 | the defaults of the header: paused off, nothing loaded, keep-open on, the zero time code and the default pattern |
| `FrontEnd.FFmpegObject.SetLoopEnabled` | src/FFmpegObject.cpp:111-117 | the flag is set, and signalled only when it changes |
| `FrontEnd.FFmpegObject.SetOneBasedFrameNumbers` | src/FFmpegObject.cpp:129-135 | the numbering is set, and signalled only when it changes |
| `FrontEnd.FFmpegObject.SetKeepOpenEnabled` | src/FFmpegObject.cpp:142-148 | the flag is set, and signalled only when it changes |
| `FrontEnd.FFmpegObject.SetTimecodeFormat` | src/FFmpegObject.cpp:177-185 | on a change the engine is told, the change signalled and the text refreshed; otherwise nothing happens |
| `FrontEnd.FFmpegObject.SetUseEmbeddedTimecode` | src/FFmpegObject.cpp:192-201 | on a change it is signalled, and switching on fetches the embedded time code of the current frame |
| `FrontEnd.FFmpegObject.SetTimecodeOffset` | src/FFmpegObject.cpp:213-220 | on a change it is signalled and the text refreshed |
| `FrontEnd.FFmpegObject.SetCustomTimecodePattern` | src/FFmpegObject.cpp:227-234 | on a change it is signalled and the text refreshed |
| `FrontEnd.FFmpegObject.SetTimecodeSource` | src/FFmpegObject.cpp:241-248 | on a change it is signalled and the text refreshed |
| `FrontEnd.FFmpegObject.FrameToTimecode` | src/FFmpegObject.cpp:251-263 | the zero time code without a positive rate; in the frames-only format the frame's own number |
| `FrontEnd.FFmpegObject.TimecodeToFrame` | src/FFmpegObject.cpp:265-271 | 0 without a positive rate |
| `FrontEnd.FFmpegObject.DisplayFrameNumber` | src/FFmpegObject.cpp:274-277 | the displayed number converts back to the internal frame it came from |
| `FrontEnd.FFmpegObject.InternalFrameNumber` | src/FFmpegObject.cpp:279-282 | the internal frame converts back to the displayed number it came from |
| `FrontEnd.FFmpegObject.SeekToPosition` | src/FFmpegObject.cpp:414-418 | the time is recorded and the engine asked to seek |
| `FrontEnd.FFmpegObject.ResetEndReached` | src/FFmpegObject.cpp:394-400 | a set end flag is cleared and signalled; a clear one is left alone |
| `FrontEnd.FFmpegObject.Play` | src/FFmpegObject.cpp:285-294 | at the end of a file with looping on it first seeks to 0 and clears the end flag; then the engine plays and the time code timer runs |
| `FrontEnd.FFmpegObject.Pause` | src/FFmpegObject.cpp:296-304 | the engine toggles its pause, and the time code timer stops exactly when the engine is then paused |
| `FrontEnd.FFmpegObject.PlayPause` | src/FFmpegObject.cpp:306-313 | `play` while the mirrored pause flag is set, `pause` otherwise |
| `FrontEnd.FFmpegObject.HandleEndOfVideo` | src/FFmpegObject.cpp:402-412 | with looping on, a seek to 0 and the end flag cleared; otherwise the end flag set and the end signalled |
| `FrontEnd.FFmpegObject.SeekToLastFrame` | src/FFmpegObject.cpp:454-460 | with a known frame count a seek to the last frame, otherwise nothing |
| `FrontEnd.FFmpegObject.SeekToFirstFrame` | src/FFmpegObject.cpp:462-465 | a seek to frame 0 |
| `FrontEnd.FFmpegObject.Command` | src/FFmpegObject.cpp:315-352 | an empty list is ignored; the engine requests are those of `CommandRequests`; a `loadfile` the engine opens starts the metadata timer and signals the load; the seek time is stamped exactly when the request is a seek |
| `FrontEnd.FFmpegObject.OnEngineFilenameChanged` | src/FFmpegObject.cpp:468-474 | the name is taken, and signalled only when it changes |
| `FrontEnd.FFmpegObject.OnEnginePositionChanged` | src/FFmpegObject.cpp:476-484 | the mirror follows `FollowPosition`; a taken position is signalled and the time code follows |
| `FrontEnd.FFmpegObject.OnEngineDurationChanged` | src/FFmpegObject.cpp:486-492 | a duration more than a millisecond away is taken and signalled |
| `FrontEnd.FFmpegObject.OnEngineFpsChanged` | src/FFmpegObject.cpp:494-500 | a rate more than 0.001 away is taken and signalled |
| `FrontEnd.FFmpegObject.OnEngineFrameCountChanged` | src/FFmpegObject.cpp:502-508 | the count is taken, and signalled only when it changes |
| `FrontEnd.FFmpegObject.OnEnginePlayingChanged` | src/FFmpegObject.cpp:510-513 | the playing state is passed on |
| `FrontEnd.FFmpegObject.OnEnginePauseChanged` | src/FFmpegObject.cpp:515-521 | the pause flag is taken, and signalled only when it changes |
| `FrontEnd.FFmpegObject.OnEngineMediaTextChanged` | src/FFmpegObject.cpp:523-553 | the codec, format, resolution or title is taken, and signalled only when it changes |
| `FrontEnd.FFmpegObject.OnEngineTimecodeChanged` | src/FFmpegObject.cpp:555-561 | the time code text is taken, and signalled only when it changes |
| `FrontEnd.FFmpegObject.OnEngineEndReached` | src/FFmpegObject.cpp:563-566 | the end of the video is handled as `handleEndOfVideo` does |
| `FrontEnd.FFmpegObject.UpdateTimecode` | src/FFmpegObject.cpp:436-439 | the time code settings become `Refreshed`, and a changed text is signalled |
| `FrontEnd.FFmpegObject.CalculateTimecode` | src/FFmpegObject.cpp:580-604 | nothing without a positive rate; otherwise the shown text becomes `ShownTimecode` of the settings and the position, and a change is signalled |
| `FrontEnd.FFmpegObject.FetchEmbeddedTimecode` | src/FFmpegObject.cpp:441-452 | the settings become `Fetched`, and a changed embedded time code is signalled |
| `FrontEnd.LocalFileOfUrl` | src/FFmpegObject.cpp:326-330 | an absolute path written as a `file://` URL is opened under that path, less the slash before a Windows drive letter |
| `FrontEnd.StepTarget` | src/FFmpegObject.cpp:339-343 | the `frame-step` target lies after the position |
| `FrontEnd.PlayRequests` | src/FFmpegObject.cpp:285-294 | the last engine call of `play` is play, preceded by a seek to 0 exactly when the file has ended with looping on |
| `FrontEnd.FFmpegObject.SetProperty` | src/FFmpegObject.cpp:354-357 | the name and the value are handed to the engine and nothing else changes |
| `FrontEnd.FFmpegObject.GetProperty` | src/FFmpegObject.cpp:359-362 | the engine is asked for the name and its answer is returned unchanged |
| `FrontEnd.FFmpegObject.UpdateVideoMetadata` | src/FFmpegObject.cpp:425-428 | the single-shot metadata timer (lines 22-25) has stopped and the metadata change is signalled |
| `FrontEnd.FFmpegObject.ReplaceTimecode` | src/FFmpegObject.cpp:598-603 | the shown text becomes the new one, and the change is signalled exactly when it differs |
| `LegacyFrontEnd.Played` | src/core/ffmpegobject.cpp:285-308 | nothing while playing, paused or not; otherwise playing, unpaused and timed; the position and duration are kept and the consistency of the flags is preserved |
| `LegacyFrontEnd.PausedState` | src/core/ffmpegobject.cpp:310-319 | only a playing, unpaused item pauses, with its timer stopped; consistency is preserved |
| `LegacyFrontEnd.Stopped` | src/core/ffmpegobject.cpp:321-337 | only a playing item stops: unpaused, untimed and back at 0; consistency is preserved |
| `LegacyFrontEnd.Positioned` | src/core/ffmpegobject.cpp:259-267 | a target less than 0.1 s away is ignored; any other becomes the position |
| `LegacyFrontEnd.Ticked` | src/core/ffmpegobject.cpp:459-470 | only while playing unpaused the position moves 0.1 s on; reaching the duration stops the item; consistency is preserved |
| `LegacyFrontEnd.PlayedCorrected` | src/core/ffmpegobject.cpp:285-308 | the corrected `play` always leaves the item playing, unpaused and timed, and leaves a running item alone |
| `LegacyFrontEnd.Exactly` | src/core/ffmpegobject.cpp:357-367 | the corrected frame steps set the position exactly and keep the play state |
| `LegacyFrontEnd.TransportIdempotent` | src/core/ffmpegobject.cpp:285-337 | `play`, `pause` and `stop` twice are each once |
| `LegacyFrontEnd.TickStaysBeforeEnd` | src/core/ffmpegobject.cpp:459-470 | a tick never leaves a playing item at or past its duration, and a tick that stops it leaves it at 0 |
| `LegacyFrontEnd.TicksAdvance` | src/core/ffmpegobject.cpp:459-470 | while the item keeps playing, `n` ticks move it exactly `n` steps of 0.1 s, and it stays before its duration |
| `LegacyFrontEnd.StoppedStaysStopped` | src/core/ffmpegobject.cpp:461 | ticks move a stopped or paused item nowhere |
| `LegacyFrontEnd.TickedTimesAdd` | src/core/ffmpegobject.cpp:459-470 | `m` ticks and then `n` more are `m + n` ticks |
| `LegacyFrontEnd.EndIsFinal` | src/core/ffmpegobject.cpp:459-470 | once a run of ticks has stopped the item, every later tick leaves it as it is |
| `LegacyFrontEnd.PlayAfterPauseIsNoOp` | src/core/ffmpegobject.cpp:285-290 | as written, after `play` and `pause` a further `play` changes nothing: the item stays paused with its timer stopped |
| `LegacyFrontEnd.PlayCorrectedResumes` | src/core/ffmpegobject.cpp:285-319 | the corrected `play` resumes a paused item at its position |
| `LegacyFrontEnd.FrameStepIsNoOp` | src/core/ffmpegobject.cpp:357-367 | as written, a frame step does not move the item, and a frame back-step does not either from a non-negative position |
| `LegacyFrontEnd.StepForwardMoves` | src/core/ffmpegobject.cpp:345-349 | a one-second step does move |
| `LegacyFrontEnd.FrameStepCorrectedMoves` | src/core/ffmpegobject.cpp:357-367 | the corrected steps move by one frame, and a step back undoes a step from any non-negative position |
| `LegacyFrontEnd.TickNotices` | src/core/ffmpegobject.cpp:459-470 | no signal unless playing unpaused; a tick that reaches the duration ends with the end-of-file signal |
| `LegacyFrontEnd.Commanded` | src/core/ffmpegobject.cpp:414-425 | an empty list or an unknown command changes nothing, and every command preserves consistency |
| `LegacyFrontEnd.CommandPlayPausePlay` | src/core/ffmpegobject.cpp:414-425 | as written, play, pause, play through `command` leaves a stopped item paused with its position timer stopped: the second play changes nothing |
| `LegacyFrontEnd.CommandedCorrected` | src/core/ffmpegobject.cpp:414-425 | with the corrected `play`, "play" gives `PlayedCorrected`, every other list what `command` gives, and consistency is preserved |
| `LegacyFrontEnd.CommandCorrectedPlayPausePlay` | src/core/ffmpegobject.cpp:414-425 | with the corrected `play`, the same commands leave the item playing, unpaused and timed, at its position |
| `LegacyFrontEnd.FFmpegObject.constructor` | src/core/ffmpegobject.h:128-134 | the item starts idle: not playing, unpaused, at 0 with no duration, full volume, not muted, no source |
| `LegacyFrontEnd.FFmpegObject.SetPosition` | src/core/ffmpegobject.cpp:259-267 | the state becomes `Positioned`, and a move is signalled |
| `LegacyFrontEnd.FFmpegObject.SetVolume` | src/core/ffmpegobject.cpp:269-275 | a change below 0.01 is ignored; any other is taken and signalled |
| `LegacyFrontEnd.FFmpegObject.SetMuted` | src/core/ffmpegobject.cpp:277-283 | the flag is set, and signalled only when it changes |
| `LegacyFrontEnd.FFmpegObject.Play` | src/core/ffmpegobject.cpp:285-308 | as written: the state becomes `Played`, and a start is signalled |
| `LegacyFrontEnd.FFmpegObject.PlayCorrected` | src/core/ffmpegobject.cpp:285-308 | corrected: the state becomes `PlayedCorrected`, and a resume is signalled like a start |
| `LegacyFrontEnd.FFmpegObject.Pause` | src/core/ffmpegobject.cpp:310-319 | the state becomes `PausedState`, and a pause is signalled |
| `LegacyFrontEnd.FFmpegObject.Stop` | src/core/ffmpegobject.cpp:321-337 | the state becomes `Stopped`, with the signals of a stop |
| `LegacyFrontEnd.FFmpegObject.Seek` | src/core/ffmpegobject.cpp:339-343 | `setPosition`, then `seeked` whether the position moved or not |
| `LegacyFrontEnd.FFmpegObject.StepForward` | src/core/ffmpegobject.cpp:345-349 | the position moves one second on, signalled as a position change and a seek |
| `LegacyFrontEnd.FFmpegObject.StepBackward` | src/core/ffmpegobject.cpp:351-355 | a seek one second back, not before 0, signalled `positionChanged` unless the move is under 0.1 s, then always `seeked` |
| `LegacyFrontEnd.FFmpegObject.FrameStep` | src/core/ffmpegobject.cpp:357-361 | as written: nothing moves and only `seeked` is signalled |
| `LegacyFrontEnd.FFmpegObject.FrameBackStep` | src/core/ffmpegobject.cpp:363-367 | as written: from a non-negative position nothing moves and only `seeked` is signalled |
| `LegacyFrontEnd.FFmpegObject.FrameStepCorrected` | src/core/ffmpegobject.cpp:357-361 | corrected: an exact seek one frame on |
| `LegacyFrontEnd.FFmpegObject.FrameBackStepCorrected` | src/core/ffmpegobject.cpp:363-367 | corrected: an exact seek one frame back, not before 0 |
| `LegacyFrontEnd.FFmpegObject.OnPositionUpdate` | src/core/ffmpegobject.cpp:459-470 | the state becomes `Ticked`, with the signals of a tick |
| `LegacyFrontEnd.FFmpegObject.LoadFile` | src/core/ffmpegobject.cpp:369-381 | an opened file's duration is taken and the media information signalled; otherwise an error names the file |
| `LegacyFrontEnd.FFmpegObject.SetSource` | src/core/ffmpegobject.cpp:247-257 | only a change is taken and signalled `sourceChanged`; a non-empty source is loaded, and a successful load takes the duration and signals the four media-info changes and `fileLoaded`, a failed one an error |
| `LegacyFrontEnd.FFmpegObject.SetProperty` | src/core/ffmpegobject.cpp:390-401 | "volume" and "mute" go to their setters, with their effects and signals: a volume change below 0.01 is ignored, any other taken and signalled; the mute flag is set and signalled when it changes; any other name changes nothing |
| `LegacyFrontEnd.FFmpegObject.GetProperty` | src/core/ffmpegobject.cpp:403-412 | the four named values, and no value for any other name |
| `LegacyFrontEnd.FFmpegObject.Command` | src/core/ffmpegobject.cpp:414-425 | the state becomes `Commanded` of the old one and the list, and the signals are `CommandNotices`, those of the member dispatched to |
| `LegacyFrontEnd.CommandNotices` | src/core/ffmpegobject.cpp:414-425 | an empty list or an unknown command signals nothing; a seek signals exactly when it has an argument, and ends with `seeked` |
| `LegacyFrontEnd.TransportCommandSignalsChange` | src/core/ffmpegobject.cpp:414-425 | "play", "pause" and "stop" signal exactly when they change the item |
| `LegacyFrontEnd.TickedTimes` | src/core/ffmpegobject.cpp:459-470 | a run of ticks keeps the duration |
| `LegacyFrontEnd.StopNotices` | src/core/ffmpegobject.cpp:321-337 | `stop` signals exactly when the item was playing, then including the playing change and ending with the end of the file |

## Left out

- Threads, mutexes and wait conditions are not modelled, and neither is the
  worker loop `decodeLoop` of either decoder (read, send, receive). Every
  operation runs sequentially. The video loop's one effect that the engine
  relies on is stated by `VideoDecoder.EmittedKeepsTimestamps`.
- Of the engine's `m_mutex` only the order in which its members take and
  release it is modelled (`Engine.RunLocks`), because a non-recursive
  `QMutex` taken twice on one thread never returns. That is the fourth
  finding: `closeFile` (src/core/FFmpegEngine.cpp:158) calls `stop`, which
  locks the mutex again (line 255), and `openFile` (line 67) and the
  destructor (line 43) begin with `closeFile`. The methods
  `Engine.FFmpegEngine.CloseFile` and `OpenFile` model the evident intent,
  one lock around the whole member, and return.
- Qt timers are not run. A single-shot timer becomes an entry in
  `scheduled`, or an explicit later method call. The wall clock is a
  parameter.
- The calls into libmpv and libav* are not modelled: mpv commands and
  properties, `av_read_frame`, `avcodec_*`, the `sws_*` and `swr_*` calls,
  and device creation.
  - Their answers are parameters, or fields of `Stream` and `Container`.
  - Packets and frames are opaque identities.
  - The pixel data itself is not modelled.
- The rendering code is not part of this model: the mpv renderer, the video
  renderer, the video scope and their shaders. Nor are the application shell
  in `src/main.cpp` and the standalone FFmpeg test program.
- The metadata fetches are left out: `MpvObject::updateVideoMetadata`,
  `FFmpegEngine::updateMediaInfo` and the legacy `updateMediaInfo`. They read
  strings from libav or mpv, and only the timer that triggers the mpv one is
  modelled (`Mpv.MpvObject.MetadataTimerFired`).
- `MpvObject::command`, `setProperty` and `getProperty` are left out, because
  they pass commands and properties through to libmpv. The one case of
  `setProperty` the object itself relies on, "pause", is `Mpv.SetPauseStep`.
  Its "time-pos" case, which would call `seekToPosition`, is not reached by
  a number: the test for a value convertible to `bool` comes first
  (src/mpvobject.cpp:538), a `double` passes it, and the value goes to mpv
  as a flag. The values `getProperty` answers from the object's own fields
  are not modelled.
- `MpvObject::checkPerformance` is left out: it compares the wall clock and
  mpv's frame rate and only sends mpv commands.
- The empty `FFmpegObject::handleFFmpegEvents`, `updateFrameCount` and
  `applyVideoFilters`, and `FFmpegEngine::getCurrentVideoFrame` and
  `getCurrentAudioFrame`, are left out, because they hold no logic beyond
  returning a field.
- TimelineSync.TimelineSync.HandleSyncTimer and CountTick: the tick counter
  `frameCountCheck` is a function-local `static int` in the source
  (src/timelinesync.cpp:294), shared by every `TimelineSync` and never reset
  by a new one. The model keeps one counter per object, which starts at 0 in
  each constructor, so it does not capture ticks of one object advancing
  another's recount.
- `TimelineSync::frameToPosition` and `positionToFrame` are left out,
  because they are aliases of the two conversions that are modelled.
- The legacy item's embedded `FFmpegDecoder` is not part of this model,
  because it is a foreign decoder. Also left out are the item's `screenshot`,
  `cleanup`, paint and initialisation members.
- Floating point is modelled as exact arithmetic. `real` does not reproduce
  IEEE rounding, so the following relations are exact in the model where the
  program is off by the rounding of a double:
  - the 0.1 s steps of the legacy position timer;
  - the 16 ms steps of the engine's timer;
  - the fractional-second fields of the HH:MM:SS.mmm and custom formats.
- Mpv.SeekStep: the request logs the exact target, but `seekToPosition`
  sends mpv the text `seek %1 absolute exact` with the double formatted by
  `QString::arg`, which keeps six significant digits
  (src/mpvobject.cpp:598). From 10000 s on, mpv receives the position
  rounded to 0.1 s, which can be several frames off. The model does not
  capture that rounding.
- C++ `int` overflow is not modelled. Integers are unbounded, and the lemmas
  that read text back through `toInt` require their fields to fit in an
  `int`.
- Division by zero, which is undefined behaviour in C++, is modelled with
  the text for a missing frame rate. It occurs when the rounded rate is 0:
  in `frameToSMPTE` for 0 < fps < 0.5, and in `TimelineSync::frameToTimecode`
  for 0 < fps < 1.
- `VideoDecoder.VideoDecoder.SeekToFrame`: requires a positive rate on the
  path that estimates the timestamp from the rate. As written,
  src/core/VideoDecoder.cpp:253 divides by `m_fps` there, and a stream with
  `nb_frames > 0` and no usable frame rate leaves `m_fps` at 0.0 (lines 22
  and 88-90), so the division is by zero; the model does not give that
  case a value.
- `FrontEnd.LocalFile` and `QtUrl.ToLocalFile`: `QUrl`'s tolerant parsing is
  modelled for the "file://" names the player opens: authority, path,
  percent-decoding, the "//host" form and the Windows drive letter. Not
  modelled are user information and ports in the authority, IPv6 and
  internationalised host names, escapes that decode to multi-byte UTF-8,
  and the URLs `QUrl` rejects as invalid.
- `MpvTimecodeLemmas.NonDropRoundTrip`: the most negative `int` frame is
  excluded, because its magnitude is not an `int` and `abs` overflows on it.
- `FrontEnd.FFmpegObject.OnEngineEndReached`: it states the new playback
  state and the engine requests, but not the signals, which are those of
  `FrontEnd.FFmpegObject.HandleEndOfVideo`.
- The Qt signals of the engine and the two FFmpeg items are recorded in log
  fields, with their arguments; those of the mpv object and the timeline
  synchroniser are not modelled. How Qt delivers signals is not modelled.
- `Mpv.MpvObject.ProcessStateChange` takes the pending pause state as a
  parameter: no member of the object assigns `m_pendingPauseState`, so it
  keeps its default, which `Mpv.PauseReportUndone` uses.
- The mpv object's members that are missing from its header are given the
  same defaults as the FFmpeg item's header gives them.

## Findings

| source | as written | input that shows it | evidently intended | confidence | as-written member | corrected member |
|---|---|---|---|---|---|---|
| src/mpvobject.cpp:335-350 | The `eof-reached` handler sets `m_endReached` itself, then schedules `handleEndOfVideo`. That handler returns at once when the flag is already set. So the end of the file neither pauses, nor parks at the safe end position, nor restarts a loop. | A looping, playing 10 s video at 25 fps that reaches its end at 9.99 s | The end of the file is handled by `handleEndOfVideo`: pause, park two frames before the end, and restart when looping | high; not executed | `MpvLemmas.EofThenEndIsLost` | `MpvLemmas.EofCorrectedEnds` |
| src/core/ffmpegobject.cpp:357-367 | `frameStep` and `frameBackStep` move by 1/30 s through `setPosition`. `setPosition` ignores any change below 0.1 s, so neither step moves. | Any position, e.g. 5.0 s: after `frameStep` the position is still 5.0 s | A frame step moves the position by one frame | high; not executed | `LegacyFrontEnd.FrameStepIsNoOp` | `LegacyFrontEnd.FrameStepCorrectedMoves` |
| src/core/ffmpegobject.cpp:285-290 | `play` returns at once while `m_playing` is set, and `pause` leaves `m_playing` set. So `play` after `pause` does not resume. | `play`, `pause`, `play` from a stopped item: it stays paused with the timer stopped | `play` resumes a paused item | medium; not executed | `LegacyFrontEnd.PlayAfterPauseIsNoOp` | `LegacyFrontEnd.PlayCorrectedResumes` |
| src/core/FFmpegEngine.cpp:156-160 | `closeFile` holds `m_mutex` through a `QMutexLocker` and then calls `stop`, which takes the same non-recursive mutex again (line 255). `openFile` (line 67) and the destructor (line 43) begin with `closeFile`. | Opening any file: the first statement of `openFile` waits for the mutex its own thread holds | `closeFile` stops playback under the one lock it already holds, and returns | high; not executed | `Engine.CloseFileBlocks`, `Engine.OpenFileBlocks` | `Engine.CloseFileCorrectedReturns` |

How the model uses the two halves:

- For the first finding, `Mpv.MpvObject.HandleMpvEvents` runs the code as
  written: its event step `Mpv.MpvObject.OnEofReached` is `Mpv.EofStep`. The
  corrected step is `Mpv.EofStepCorrected`, run by
  `Mpv.MpvObject.OnEofReachedCorrected`.
- For the second and third findings, `LegacyFrontEnd.FFmpegObject.Command`
  runs the code as written: it dispatches "play" to
  `LegacyFrontEnd.FFmpegObject.Play`.
  - The corrected dispatch is `LegacyFrontEnd.CommandedCorrected`, and
    `LegacyFrontEnd.CommandCorrectedPlayPausePlay` states what it gives.
  - The methods as written, `Play`, `FrameStep` and `FrameBackStep`, are
    kept beside their corrections, `PlayCorrected`, `FrameStepCorrected`
    and `FrameBackStepCorrected`.
- For the fourth finding, `Engine.FFmpegEngine.CloseFile` and `OpenFile`
  model the corrected locking: they return, and the lock order as written
  is stated by `Engine.CloseFileBlocks` and `Engine.OpenFileBlocks`.

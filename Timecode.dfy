/**
 * Time-code conversion (src/utils/TimecodeUtils.cpp): frame numbers to
 * SMPTE "HH:MM:SS:FF" / drop-frame "HH:MM:SS;FF", "HH:MM:SS.mmm", plain frame
 * numbers and custom patterns, and back.
 *
 * Frame rates are exact reals; every place where the C++ code truncates a
 * double, rounds it or divides integers is written out with the helpers of
 * `CppMath`.
 */
module Timecode {
  import opened CppMath
  import opened QtText

  /** `TimecodeUtils::TimecodeFormat`, plus any other value cast to it. */
  datatype Format = SmpteNonDrop | SmpteDropFrame | HhMmSsMs | FramesOnly | Custom | Unlisted(code: int)

  /** `static_cast<TimecodeFormat>(code)`. */
  function FormatOf(code: int): (f: Format)
    ensures 0 <= code <= 4 <==> !f.Unlisted?
    ensures f.Unlisted? ==> f.code == code
  {
    if code == 0 then SmpteNonDrop
    else if code == 1 then SmpteDropFrame
    else if code == 2 then HhMmSsMs
    else if code == 3 then FramesOnly
    else if code == 4 then Custom
    else Unlisted(code)
  }

  /** The four numbers `parseTimecode` writes to its out-parameters. */
  datatype Clock = Clock(hours: int, minutes: int, seconds: int, frames: int)

  /** A non-negative number of seconds split the way the HH:MM:SS formatters split it. */
  datatype SecondsSplit = SecondsSplit(hours: int, minutes: int, seconds: int, fraction: real)

  const ZeroSmpte: string := "00:00:00:00"
  const ZeroHmsms: string := "00:00:00.000"
  const DefaultCustomPattern: string := "%H:%M:%S.%f"

  // ---------------------------------------------------------------- rates

  predicate Near2997(fps: real)
  {
    AbsReal(fps - 29.97) < 0.1
  }

  predicate Near5994(fps: real)
  {
    AbsReal(fps - 59.94) < 0.1
  }

  /** `isDropFrame`: the NTSC-family rates 29.97, 59.94 and 23.976, each within 0.1. */
  predicate IsDropFrame(fps: real): (d: bool)
    ensures d ==> 23.876 < fps < 60.04
    ensures fps == 23.976 || fps == 29.97 || fps == 59.94 ==> d
  {
    Near2997(fps) || Near5994(fps) || AbsReal(fps - 23.976) < 0.1
  }

  /** `static_cast<int>(std::round(fps))`: the nominal frames per second. */
  function Nominal(fps: real): (n: int)
    ensures fps >= 0.5 ==> n >= 1
    ensures 0.0 <= fps < 0.5 ==> n == 0
  {
    Round(fps)
  }

  // ------------------------------------------------------- drop-frame helpers

  /**
   * `frameToDropFrame`: at 29.97 fps, subtracts 18 labels per ten whole minutes
   * of 1800 frames and 2 per remaining whole minute; every other rate is left
   * alone.
   */
  function FrameToDropFrame(frame: int, fps: real): (r: int)
    ensures !Near2997(fps) ==> r == frame
    ensures 0 <= frame < 1800 ==> r == frame
    ensures frame >= 0 ==> r <= frame
  {
    if !IsDropFrame(fps) then frame
    else if Near2997(fps) then
      var minutes := CDiv(frame, 1800);
      var tenMinutes := CDiv(minutes, 10);
      var remainingMinutes := CMod(minutes, 10);
      frame - (tenMinutes * 18 + remainingMinutes * 2)
    else frame
  }

  /**
   * `dropFrameToFrame`: at 29.97 fps, adds 18 per whole 17982 and 2 per whole
   * 1798 of the remainder; every other rate is left alone.
   */
  function DropFrameToFrame(dropFrame: int, fps: real): (r: int)
    ensures dropFrame >= 0 ==> r >= dropFrame
  {
    if !IsDropFrame(fps) then dropFrame
    else if Near2997(fps) then
      var tenMinutes := CDiv(dropFrame, 17982);
      var remaining := CMod(dropFrame, 17982);
      var minutes := CDiv(remaining, 1798);
      dropFrame + (tenMinutes * 18 + minutes * 2)
    else dropFrame
  }

  // ------------------------------------------------------------ text shapes

  /** "HH:MM:SS" followed by `sep` and two-digit frames, as `QString::arg` builds it. */
  function SmpteText(hours: int, minutes: int, seconds: int, sep: char, frames: int): string
  {
    Field(hours, 2) + ":" + Field(minutes, 2) + ":" + Field(seconds, 2) + [sep] + Field(frames, 2)
  }

  /** "HH:MM:SS.mmm". */
  function HmsmsText(hours: int, minutes: int, seconds: int, millis: int): string
  {
    Field(hours, 2) + ":" + Field(minutes, 2) + ":" + Field(seconds, 2) + "." + Field(millis, 3)
  }

  /** `\d{2}:\d{2}:\d{2}[:;]\d{2}` matches the eleven characters at `i`. */
  predicate SmpteAt(s: string, i: nat)
    requires i + 11 <= |s|
  {
    IsDigit(s[i]) && IsDigit(s[i + 1]) && s[i + 2] == ':'
    && IsDigit(s[i + 3]) && IsDigit(s[i + 4]) && s[i + 5] == ':'
    && IsDigit(s[i + 6]) && IsDigit(s[i + 7]) && (s[i + 8] == ':' || s[i + 8] == ';')
    && IsDigit(s[i + 9]) && IsDigit(s[i + 10])
  }

  /** `\d{2}:\d{2}:\d{2}\.\d{3}` matches the twelve characters at `i`. */
  predicate HmsmsAt(s: string, i: nat)
    requires i + 12 <= |s|
  {
    IsDigit(s[i]) && IsDigit(s[i + 1]) && s[i + 2] == ':'
    && IsDigit(s[i + 3]) && IsDigit(s[i + 4]) && s[i + 5] == ':'
    && IsDigit(s[i + 6]) && IsDigit(s[i + 7]) && s[i + 8] == '.'
    && IsDigit(s[i + 9]) && IsDigit(s[i + 10]) && IsDigit(s[i + 11])
  }

  /** The leftmost match of the unanchored SMPTE expression at or after `from`. */
  function FindSmpte(s: string, from: nat): (r: Option<nat>)
    ensures r.Some? ==> from <= r.value && r.value + 11 <= |s| && SmpteAt(s, r.value)
    ensures r.Some? ==> forall j :: from <= j < r.value ==> !SmpteAt(s, j)
    ensures r.None? ==> forall j :: from <= j && j + 11 <= |s| ==> !SmpteAt(s, j)
    decreases |s| - from
  {
    if from + 11 > |s| then None
    else if SmpteAt(s, from) then Some(from)
    else FindSmpte(s, from + 1)
  }

  /** The leftmost match of the unanchored HH:MM:SS.mmm expression at or after `from`. */
  function FindHmsms(s: string, from: nat): (r: Option<nat>)
    ensures r.Some? ==> from <= r.value && r.value + 12 <= |s| && HmsmsAt(s, r.value)
    ensures r.Some? ==> forall j :: from <= j < r.value ==> !HmsmsAt(s, j)
    ensures r.None? ==> forall j :: from <= j && j + 12 <= |s| ==> !HmsmsAt(s, j)
    decreases |s| - from
  {
    if from + 12 > |s| then None
    else if HmsmsAt(s, from) then Some(from)
    else FindHmsms(s, from + 1)
  }

  /**
   * `^\d{2}:\d{2}:\d{2}[:;]\d{2}$` in QRegularExpression: `$` also matches
   * just before a final line feed.
   */
  predicate IsValidSMPTE(s: string): (b: bool)
    ensures b ==> FindSmpte(s, 0) == Some(0)
  {
    (|s| == 11 || (|s| == 12 && s[11] == '\n')) && SmpteAt(s, 0)
  }

  /** `^\d{2}:\d{2}:\d{2}\.\d{3}$`, with the same reading of `$`. */
  predicate IsValidHMSMS(s: string): (b: bool)
    ensures b ==> FindHmsms(s, 0) == Some(0) && !IsValidSMPTE(s)
  {
    (|s| == 12 || (|s| == 13 && s[12] == '\n')) && HmsmsAt(s, 0)
  }

  function Digit(c: char): (d: nat)
    requires IsDigit(c)
    ensures d < 10
  {
    c as int - '0' as int
  }

  /** `captured(k).toInt()` of a group of two digits starting at `i`. */
  function Captured2(s: string, i: nat): (v: nat)
    requires i + 2 <= |s| && IsDigit(s[i]) && IsDigit(s[i + 1])
    ensures v < 100
  {
    Digit(s[i]) * 10 + Digit(s[i + 1])
  }

  /** `captured(k).toInt()` of a group of three digits starting at `i`. */
  function Captured3(s: string, i: nat): (v: nat)
    requires i + 3 <= |s| && IsDigit(s[i]) && IsDigit(s[i + 1]) && IsDigit(s[i + 2])
    ensures v < 1000
  {
    Digit(s[i]) * 100 + Digit(s[i + 1]) * 10 + Digit(s[i + 2])
  }

  /** The four groups of the SMPTE expression matched at `i`. */
  function SmpteGroups(s: string, i: nat): (c: Clock)
    requires i + 11 <= |s| && SmpteAt(s, i)
    ensures 0 <= c.hours < 100 && 0 <= c.minutes < 100 && 0 <= c.seconds < 100 && 0 <= c.frames < 100
  {
    Clock(Captured2(s, i), Captured2(s, i + 3), Captured2(s, i + 6), Captured2(s, i + 9))
  }

  /** The four groups of the HH:MM:SS.mmm expression matched at `i` (milliseconds last). */
  function HmsmsGroups(s: string, i: nat): (c: Clock)
    requires i + 12 <= |s| && HmsmsAt(s, i)
    ensures 0 <= c.hours < 100 && 0 <= c.minutes < 100 && 0 <= c.seconds < 100 && 0 <= c.frames < 1000
  {
    Clock(Captured2(s, i), Captured2(s, i + 3), Captured2(s, i + 6), Captured3(s, i + 9))
  }

  // ----------------------------------------------------- frame -> text

  /** `frameToSMPTE`. */
  function FrameToSMPTE(frame: int, fps: real, dropFrame: bool): (t: string)
    ensures fps <= 0.0 || Nominal(fps) == 0 ==> t == ZeroSmpte
    ensures |t| >= 11
  {
    var n := Nominal(fps);
    if fps <= 0.0 || n == 0 then ZeroSmpte
    else
      var total := if dropFrame && (Near2997(fps) || Near5994(fps)) then FrameToDropFrame(frame, fps) else frame;
      var perMinute := n * 60;
      var perHour := perMinute * 60;
      var hours := CDiv(total, perHour);
      var afterHours := CMod(total, perHour);
      var minutes := CDiv(afterHours, perMinute);
      var afterMinutes := CMod(afterHours, perMinute);
      SmpteText(hours, minutes, CDiv(afterMinutes, n), if dropFrame then ';' else ':', CMod(afterMinutes, n))
  }

  /**
   * The split of `total` seconds that `frameToHMSMS` and `frameToCustom`
   * make, each step truncating toward zero.
   */
  function Split(total: real): (p: SecondsSplit)
    ensures total >= 0.0 ==> p.hours >= 0 && 0 <= p.minutes < 60 && 0 <= p.seconds < 60
    ensures total >= 0.0 ==> 0.0 <= p.fraction < 1.0
    ensures total == (p.hours * 3600 + p.minutes * 60 + p.seconds) as real + p.fraction
  {
    var hours := Trunc(total / 3600.0);
    var afterHours := total - (hours * 3600) as real;
    var minutes := Trunc(afterHours / 60.0);
    var afterMinutes := afterHours - (minutes * 60) as real;
    var seconds := Trunc(afterMinutes);
    SecondsSplit(hours, minutes, seconds, afterMinutes - seconds as real)
  }

  /** `frameToHMSMS`. */
  function FrameToHMSMS(frame: int, fps: real): (t: string)
    ensures fps <= 0.0 ==> t == ZeroHmsms
    ensures |t| >= 12
  {
    if fps <= 0.0 then ZeroHmsms
    else
      SplitText(Split(frame as real / fps))
  }

  /** The "HH:MM:SS.mmm" text of a split, the milliseconds truncated. */
  function SplitText(p: SecondsSplit): (t: string)
    ensures |t| >= 12
  {
    HmsmsText(p.hours, p.minutes, p.seconds, Trunc(p.fraction * 1000.0))
  }

  /** `frameToCustom`: the pattern with %H, %M, %S, %f and %F replaced, in that order. */
  function FrameToCustom(frame: int, fps: real, pattern: string): (t: string)
    ensures fps <= 0.0 || frame < 0 ==> t == pattern
    ensures NoFieldLetters(pattern) ==> t == pattern
  {
    if fps <= 0.0 || frame < 0 then pattern
    else
      FillPattern(pattern, Split(frame as real / fps), Number(frame))
  }

  /** The pattern with the fields of `p` and then the frame number put in. */
  function FillPattern(pattern: string, p: SecondsSplit, frameText: string): (t: string)
    ensures NoFieldLetters(pattern) ==> t == pattern
  {
    FillFields(pattern, Field(p.hours, 2), Field(p.minutes, 2), Field(p.seconds, 2),
               Field(Trunc(p.fraction * 1000.0), 3), frameText)
  }

  /** No field of `frameToCustom` can occur in a pattern without the letters H, M, S, f and F. */
  predicate NoFieldLetters(pattern: string)
  {
    'H' !in pattern && 'M' !in pattern && 'S' !in pattern && 'f' !in pattern && 'F' !in pattern
  }

  /** The five replacements of `frameToCustom`, given the texts that go in. */
  function FillFields(pattern: string, hh: string, mm: string, ss: string, ms: string, frameText: string): (t: string)
    ensures NoFieldLetters(pattern) ==> t == pattern
  {
    var withHours := ReplaceAll(pattern, "%H", hh);
    var withMinutes := ReplaceAll(withHours, "%M", mm);
    var withSeconds := ReplaceAll(withMinutes, "%S", ss);
    var withMillis := ReplaceAll(withSeconds, "%f", ms);
    if NoFieldLetters(pattern) then
      ReplaceAllAbsent(pattern, "%H", hh);
      ReplaceAllAbsent(pattern, "%M", mm);
      ReplaceAllAbsent(pattern, "%S", ss);
      ReplaceAllAbsent(pattern, "%f", ms);
      ReplaceAllAbsent(pattern, "%F", frameText);
      ReplaceAll(withMillis, "%F", frameText)
    else
      ReplaceAll(withMillis, "%F", frameText)
  }

  /** `frameToTimecode`. */
  function FrameToTimecode(frame: int, fps: real, format: Format): (t: string)
    ensures fps <= 0.0 ==> t == ZeroSmpte
  {
    if fps <= 0.0 then ZeroSmpte
    else match format
      case SmpteNonDrop => FrameToSMPTE(frame, fps, false)
      case SmpteDropFrame => FrameToSMPTE(frame, fps, true)
      case HhMmSsMs => FrameToHMSMS(frame, fps)
      case FramesOnly => Number(frame)
      case Custom => FrameToCustom(frame, fps, DefaultCustomPattern)
      case Unlisted(_) => FrameToSMPTE(frame, fps, false)
  }

  /** `positionToTimecode`: the frame under `position` seconds, truncated. */
  function PositionToTimecode(position: real, fps: real, format: Format): (t: string)
    ensures fps <= 0.0 ==> t == ZeroSmpte
    ensures fps > 0.0 && format == FramesOnly ==> t == Number(FrameAt(position, fps))
  {
    if fps <= 0.0 then ZeroSmpte else FrameToTimecode(FrameAt(position, fps), fps, format)
  }

  // ----------------------------------------------------- text -> frame

  /** `SMPTEToFrame`. */
  function SMPTEToFrame(timecode: string, fps: real, dropFrame: bool): (frame: int)
    ensures !IsValidSMPTE(timecode) || fps <= 0.0 ==> frame == 0
    ensures frame >= 0
  {
    if !IsValidSMPTE(timecode) || fps <= 0.0 then 0
    else match FindSmpte(timecode, 0)
      case None => 0
      case Some(i) =>
        var c := SmpteGroups(timecode, i);
        var total := ClockFrames(c, Nominal(fps));
        if dropFrame && (Near2997(fps) || Near5994(fps)) then DropFrameToFrame(total, fps) else total
  }

  /** The frame count an SMPTE clock names at `n` frames per second. */
  function ClockFrames(c: Clock, n: int): (total: int)
    ensures c.hours >= 0 && c.minutes >= 0 && c.seconds >= 0 && c.frames >= 0 && n >= 0 ==> total >= 0
  {
    (c.hours * 3600 + c.minutes * 60 + c.seconds) * n + c.frames
  }

  /** `HMSMSToFrame`: the frame under the time, truncated. */
  function HMSMSToFrame(timecode: string, fps: real): (frame: int)
    ensures !IsValidHMSMS(timecode) || fps <= 0.0 ==> frame == 0
    ensures frame >= 0
  {
    if !IsValidHMSMS(timecode) || fps <= 0.0 then 0
    else match FindHmsms(timecode, 0)
      case None => 0
      case Some(i) =>
        FrameAt(ClockSeconds(HmsmsGroups(timecode, i)), fps)
  }

  /** `static_cast<int>(seconds * fps)`: the frame shown at a time. */
  function FrameAt(seconds: real, fps: real): (f: int)
    ensures seconds >= 0.0 && fps >= 0.0 ==> f >= 0
  {
    var x := seconds * fps;
    assert seconds >= 0.0 && fps >= 0.0 ==> x >= 0.0;
    Trunc(x)
  }

  /** The seconds an HH:MM:SS.mmm clock names (its `frames` hold the milliseconds). */
  function ClockSeconds(c: Clock): real
  {
    (c.hours * 3600 + c.minutes * 60 + c.seconds) as real + c.frames as real / 1000.0
  }

  /** `timecodeToFrame`; custom and unknown formats are read as non-drop SMPTE. */
  function TimecodeToFrame(timecode: string, fps: real, format: Format): (frame: int)
    ensures fps <= 0.0 ==> frame == 0
    ensures format != FramesOnly ==> frame >= 0
  {
    if fps <= 0.0 then 0
    else match format
      case SmpteNonDrop => SMPTEToFrame(timecode, fps, false)
      case SmpteDropFrame => SMPTEToFrame(timecode, fps, true)
      case HhMmSsMs => HMSMSToFrame(timecode, fps)
      case FramesOnly => ToIntOr0(timecode)
      case Custom => SMPTEToFrame(timecode, fps, false)
      case Unlisted(_) => SMPTEToFrame(timecode, fps, false)
  }

  /** `timecodeToPosition`: the start time of the frame the text names. */
  function TimecodeToPosition(timecode: string, fps: real, format: Format): (position: real)
    ensures fps <= 0.0 ==> position == 0.0
    ensures format != FramesOnly ==> position >= 0.0
  {
    if fps <= 0.0 then 0.0 else TimecodeToFrame(timecode, fps, format) as real / fps
  }

  // ------------------------------------------------------------- utilities

  /** `isValidTimecode`. */
  predicate IsValidTimecode(timecode: string, format: Format): (b: bool)
    ensures format.Unlisted? ==> !b
    ensures b && (format == SmpteNonDrop || format == SmpteDropFrame) ==> DetectFormat(timecode) in {SmpteNonDrop, SmpteDropFrame}
    ensures b && format == HhMmSsMs ==> DetectFormat(timecode) == HhMmSsMs
  {
    match format
    case SmpteNonDrop => IsValidSMPTE(timecode)
    case SmpteDropFrame => IsValidSMPTE(timecode)
    case HhMmSsMs => IsValidHMSMS(timecode)
    case FramesOnly => ToIntOr0(timecode) >= 0
    case Custom => timecode != []
    case Unlisted(_) => false
  }

  /** `detectFormat`. */
  function DetectFormat(timecode: string): (f: Format)
    ensures !f.Unlisted?
  {
    if IsValidSMPTE(timecode) then (if ';' in timecode then SmpteDropFrame else SmpteNonDrop)
    else if IsValidHMSMS(timecode) then HhMmSsMs
    else if ToIntOr0(timecode) >= 0 && timecode == Number(ToIntOr0(timecode)) then FramesOnly
    else Custom
  }

  /** `formatTimecode`; frames-only and millisecond forms assume 30 frames per second. */
  function FormatTimecode(hours: int, minutes: int, seconds: int, frames: int, format: Format): (t: string)
    ensures format != FramesOnly ==> |t| >= 11
    ensures format == HhMmSsMs ==> |t| >= 12
  {
    match format
    case SmpteNonDrop => SmpteText(hours, minutes, seconds, ':', frames)
    case SmpteDropFrame => SmpteText(hours, minutes, seconds, ';', frames)
    case HhMmSsMs => HmsmsText(hours, minutes, seconds, CDiv(frames * 1000, 30))
    case FramesOnly => Number(hours * 108000 + minutes * 1800 + seconds * 30 + frames)
    case Custom => SmpteText(hours, minutes, seconds, ':', frames)
    case Unlisted(_) => SmpteText(hours, minutes, seconds, ':', frames)
  }

  /**
   * `parseTimecode`: all four outputs start at zero and stay there unless the
   * format's expression matches somewhere in the text (frames-only text is
   * split at 30 frames per second).
   */
  function ParseTimecode(timecode: string, format: Format): (c: Clock)
    ensures format.Custom? || format.Unlisted? ==> c == Clock(0, 0, 0, 0)
    ensures format != FramesOnly ==> 0 <= c.hours < 100 && 0 <= c.minutes < 100 && 0 <= c.seconds < 100 && 0 <= c.frames < 100
    ensures format == FramesOnly ==> ToIntOr0(timecode) == c.hours * 108000 + c.minutes * 1800 + c.seconds * 30 + c.frames
  {
    match format
    case SmpteNonDrop => ParseSmpte(timecode)
    case SmpteDropFrame => ParseSmpte(timecode)
    case HhMmSsMs =>
      (match FindHmsms(timecode, 0)
       case None => Clock(0, 0, 0, 0)
       case Some(i) =>
         var g := HmsmsGroups(timecode, i);
         Clock(g.hours, g.minutes, g.seconds, CDiv(g.frames * 30, 1000)))
    case FramesOnly =>
      var total := ToIntOr0(timecode);
      var afterHours := CMod(total, 108000);
      var afterMinutes := CMod(afterHours, 1800);
      Clock(CDiv(total, 108000), CDiv(afterHours, 1800), CDiv(afterMinutes, 30), CMod(afterMinutes, 30))
    case Custom => Clock(0, 0, 0, 0)
    case Unlisted(_) => Clock(0, 0, 0, 0)
  }

  function ParseSmpte(timecode: string): (c: Clock)
    ensures 0 <= c.hours < 100 && 0 <= c.minutes < 100 && 0 <= c.seconds < 100 && 0 <= c.frames < 100
  {
    match FindSmpte(timecode, 0)
    case None => Clock(0, 0, 0, 0)
    case Some(i) => SmpteGroups(timecode, i)
  }

  // ------------------------------------------------------ embedded time code

  /** `av_toupper`: ASCII letters only. */
  function UpperChar(c: char): char
  {
    if 'a' <= c <= 'z' then (c as int - 'a' as int + 'A' as int) as char else c
  }

  /** Two dictionary keys are the same when they agree letter by letter, ASCII case ignored. */
  predicate SameKey(a: string, b: string)
  {
    |a| == |b| && forall k :: 0 <= k < |a| ==> UpperChar(a[k]) == UpperChar(b[k])
  }

  /** Entry `i` is the first whose key is `key`, case ignored. */
  predicate FirstKeyAt(entries: seq<(string, string)>, key: string, i: int)
  {
    0 <= i < |entries| && SameKey(entries[i].0, key)
    && forall j :: 0 <= j < i ==> !SameKey(entries[j].0, key)
  }

  /**
   * `av_dict_get(dict, key, nullptr, 0)`: the entries are searched in order,
   * and without `AV_DICT_MATCH_CASE` or `AV_DICT_IGNORE_SUFFIX` the first whose
   * key equals `key` up to ASCII case is returned.
   */
  function DictGet(entries: seq<(string, string)>, key: string): (r: Option<nat>)
    ensures r.None? <==> forall i :: 0 <= i < |entries| ==> !SameKey(entries[i].0, key)
    ensures r.Some? ==> FirstKeyAt(entries, key, r.value)
  {
    if entries == [] then None
    else if SameKey(entries[0].0, key) then Some(0)
    else match DictGet(entries[1..], key)
      case None => None
      case Some(i) => Some(i + 1)
  }

  /** A decoded frame's metadata dictionary, as its entries in order, if it has one. */
  datatype DecodedFrame = DecodedFrame(metadata: Option<seq<(string, string)>>)

  /**
   * `extractEmbeddedTimecode`: the value of the frame's first "timecode"
   * entry, in any letter case; empty for a missing frame, missing metadata
   * or no such entry.
   */
  function ExtractEmbeddedTimecode(frame: Option<DecodedFrame>): (t: string)
    ensures frame.None? || frame.value.metadata.None? ==> t == []
    ensures frame.Some? && frame.value.metadata.Some? ==>
      var m := frame.value.metadata.value;
      && ((forall i :: 0 <= i < |m| ==> !SameKey(m[i].0, "timecode")) ==> t == [])
      && (forall i :: FirstKeyAt(m, "timecode", i) ==> t == m[i].1)
  {
    match frame
    case None => []
    case Some(f) =>
      match f.metadata
      case None => []
      case Some(m) =>
        match DictGet(m, "timecode")
        case None => []
        case Some(i) => m[i].1
  }

  /** `hasEmbeddedTimecode`: the frame's first "timecode" entry exists and is not empty. */
  predicate HasEmbeddedTimecode(frame: Option<DecodedFrame>): (b: bool)
    ensures b <==> frame.Some? && frame.value.metadata.Some?
                   && exists i :: FirstKeyAt(frame.value.metadata.value, "timecode", i)
                                  && frame.value.metadata.value[i].1 != []
  {
    ExtractEmbeddedTimecode(frame) != []
  }
}

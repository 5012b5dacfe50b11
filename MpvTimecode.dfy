/**
 * The mpv front end's own time-code conversions (`MpvObject::frameToTimecode`
 * and `MpvObject::timecodeToFrame` in src/mpvobject.cpp). Unlike the shared
 * time-code utilities, the parser accepts digit runs of any length, reads a
 * leading minus sign, and corrects drop-frame text by two labels per minute
 * not divisible by ten.
 */
module MpvTimecode {
  import opened CppMath
  import opened QtText
  import opened Timecode

  // ------------------------------------------------------------ formatting

  /** The fields `frameToTimecode` derives from a non-negative number of seconds. */
  datatype TimeParts = TimeParts(hours: int, minutes: int, seconds: int, frameNumber: int, millis: int)

  /** Less than one second holds less than one second's worth of frames. */
  lemma FractionOfRate(fraction: real, fps: real)
    requires 0.0 <= fraction < 1.0 && fps > 0.0
    ensures 0.0 <= fraction * fps < fps
  {
    assert fps - fraction * fps == (1.0 - fraction) * fps;
  }

  function PartsOf(totalSeconds: real, fps: real): (p: TimeParts)
    ensures totalSeconds >= 0.0 ==>
      p.hours >= 0 && 0 <= p.minutes < 60 && 0 <= p.seconds < 60 && 0 <= p.millis < 1000
    ensures totalSeconds >= 0.0 && fps > 0.0 ==> 0 <= p.frameNumber && p.frameNumber as real < fps
  {
    var hours := Trunc(totalSeconds / 3600.0);
    var minutes := Trunc((totalSeconds - (hours * 3600) as real) / 60.0);
    var seconds := Trunc(totalSeconds - (hours * 3600) as real - (minutes * 60) as real);
    var fraction := totalSeconds - Trunc(totalSeconds) as real;
    TimeParts(hours, minutes, seconds, FractionFrames(fraction, fps), Trunc(fraction * 1000.0))
  }

  /** `static_cast<int>(fractionalSeconds * fps)`: the frames of the part of a second. */
  function FractionFrames(fraction: real, fps: real): (n: int)
    ensures 0.0 <= fraction < 1.0 && fps > 0.0 ==> 0 <= n && n as real < fps
  {
    if 0.0 <= fraction < 1.0 && fps > 0.0 then
      FractionOfRate(fraction, fps);
      Trunc(fraction * fps)
    else
      Trunc(fraction * fps)
  }

  /**
   * `MpvObject::frameToTimecode(frame, format, customPattern)`: the text of
   * `|frame|` in one of the five formats (0 non-drop, 1 drop-frame
   * separator, 2 milliseconds, 3 frames only, 4 custom pattern, others
   * non-drop), with a minus sign in front of a negative frame. A negative
   * `format` means the object's own format, an empty pattern its own pattern.
   */
  function MpvFrameToTimecode(frame: int, format: int, customPattern: string,
                              ownFormat: int, ownPattern: string, fps: real): (t: string)
    ensures fps <= 0.0 ==> t == ZeroSmpte
    ensures fps > 0.0 && frame < 0 ==> |t| > 0 && t[0] == '-'
  {
    if fps <= 0.0 then ZeroSmpte
    else
      var body := FormatBody(Abs(frame), if format < 0 then ownFormat else format,
                             if customPattern == [] then ownPattern else customPattern, fps);
      if frame < 0 then "-" + body else body
  }

  function FormatBody(frame: nat, format: int, pattern: string, fps: real): (t: string)
    requires fps > 0.0
    ensures format != 3 && format != 4 ==> |t| >= 11
    ensures format == 4 && NoCustomLetters(pattern) ==> t == pattern
  {
    var p := PartsOf(frame as real / fps, fps);
    if format == 1 then SmpteText(p.hours, p.minutes, p.seconds, ';', p.frameNumber)
    else if format == 2 then HmsmsText(p.hours, p.minutes, p.seconds, p.millis)
    else if format == 3 then Number(frame)
    else if format == 4 then CustomText(pattern, p, frame)
    else SmpteText(p.hours, p.minutes, p.seconds, ':', p.frameNumber)
  }

  /** The six replacements of the custom format, in the order they are made. */
  function CustomText(pattern: string, p: TimeParts, frame: nat): (t: string)
    ensures NoCustomLetters(pattern) ==> t == pattern
  {
    var a := ReplaceAll(pattern, "%H", Field(p.hours, 2));
    var b := ReplaceAll(a, "%M", Field(p.minutes, 2));
    var c := ReplaceAll(b, "%S", Field(p.seconds, 2));
    var d := ReplaceAll(c, "%f", Field(p.frameNumber, 2));
    var e := ReplaceAll(d, "%t", Number(frame));
    if NoCustomLetters(pattern) then
      ReplaceAllAbsent(pattern, "%H", Field(p.hours, 2));
      ReplaceAllAbsent(pattern, "%M", Field(p.minutes, 2));
      ReplaceAllAbsent(pattern, "%S", Field(p.seconds, 2));
      ReplaceAllAbsent(pattern, "%f", Field(p.frameNumber, 2));
      ReplaceAllAbsent(pattern, "%t", Number(frame));
      ReplaceAllAbsent(pattern, "%ms", Field(p.millis, 3));
      ReplaceAll(e, "%ms", Field(p.millis, 3))
    else
      ReplaceAll(e, "%ms", Field(p.millis, 3))
  }

  /** No field of the custom format can occur in a pattern without the letters H, M, S, f, t and s. */
  predicate NoCustomLetters(pattern: string)
  {
    'H' !in pattern && 'M' !in pattern && 'S' !in pattern && 'f' !in pattern && 't' !in pattern && 's' !in pattern
  }

  // --------------------------------------------------------------- parsing

  /** The length of the run of digits at the front of `s`. */
  function RunLength(s: string): (n: nat)
    ensures n <= |s|
    ensures forall k :: 0 <= k < n ==> IsDigit(s[k])
    ensures n < |s| ==> !IsDigit(s[n])
  {
    if s != [] && IsDigit(s[0]) then 1 + RunLength(s[1..]) else 0
  }

  /** The four captured groups of a match. */
  datatype Groups = Groups(g1: string, g2: string, g3: string, g4: string)

  /**
   * `(\d+):(\d+):(\d+)<last>(\d+)` matched at the front of `s`. A greedy
   * `\d+` can only end where the run of digits ends, since the next
   * character must be a separator; so each group is a whole run and the
   * match, when there is one, is unique.
   */
  function GroupsAt(s: string, last: char): (r: Option<Groups>)
    requires !IsDigit(last)
  {
    var a := RunLength(s);
    if a == 0 || a >= |s| || s[a] != ':' then None
    else
      var s1 := s[a + 1..];
      var b := RunLength(s1);
      if b == 0 || b >= |s1| || s1[b] != ':' then None
      else
        var s2 := s1[b + 1..];
        var c := RunLength(s2);
        if c == 0 || c >= |s2| || s2[c] != last then None
        else
          var s3 := s2[c + 1..];
          var d := RunLength(s3);
          if d == 0 then None
          else Some(Groups(s[..a], s1[..b], s2[..c], s3[..d]))
  }

  /** The leftmost position at or after `from` where the expression matches. */
  function FindGroups(s: string, from: nat, last: char): (r: Option<nat>)
    requires from <= |s| && !IsDigit(last)
    ensures r.Some? ==> from <= r.value <= |s| && GroupsAt(s[r.value..], last).Some?
    decreases |s| - from
  {
    if GroupsAt(s[from..], last).Some? then Some(from)
    else if from == |s| then None
    else FindGroups(s, from + 1, last)
  }

  /** The groups of the leftmost match, if any. */
  function Match(s: string, last: char): (r: Option<Groups>)
    requires !IsDigit(last)
    ensures r.None? <==> FindGroups(s, 0, last).None?
  {
    match FindGroups(s, 0, last)
    case None => None
    case Some(i) => GroupsAt(s[i..], last)
  }

  /** `static_cast<int>(wholeSeconds * fps)`. */
  function Scaled(wholeSeconds: int, fps: real): (n: int)
    ensures wholeSeconds >= 0 && fps >= 0.0 ==> n >= 0
  {
    var x := wholeSeconds as real * fps;
    assert wholeSeconds >= 0 && fps >= 0.0 ==> x >= 0.0;
    Trunc(x)
  }

  /** The value of a match of the non-drop expression. */
  function NonDropValue(g: Groups, fps: real): (v: int)
    ensures fps >= 0.0 && ToIntOr0(g.g1) >= 0 && ToIntOr0(g.g2) >= 0 && ToIntOr0(g.g3) >= 0 && ToIntOr0(g.g4) >= 0 ==> v >= 0
  {
    WholeValue(g, fps) + ToIntOr0(g.g4)
  }

  /** The frames of the first three groups read as hours, minutes and seconds. */
  function WholeValue(g: Groups, fps: real): (n: int)
    ensures fps >= 0.0 && ToIntOr0(g.g1) >= 0 && ToIntOr0(g.g2) >= 0 && ToIntOr0(g.g3) >= 0 ==> n >= 0
  {
    var h, m, s := ToIntOr0(g.g1), ToIntOr0(g.g2), ToIntOr0(g.g3);
    Scaled(h * 3600 + m * 60 + s, fps)
  }

  /** Two labels per minute, except every tenth minute, at 29.97 and 30 frames per second. */
  function DroppedLabels(totalMinutes: int, fps: real): (n: int)
    ensures !(FuzzyEqual(fps, 29.97) || FuzzyEqual(fps, 30.0)) ==> n == 0
    ensures totalMinutes >= 0 ==> 0 <= n <= 2 * totalMinutes
    ensures 0 <= totalMinutes < 10 && (FuzzyEqual(fps, 29.97) || FuzzyEqual(fps, 30.0)) ==> n == 2 * totalMinutes
  {
    if FuzzyEqual(fps, 29.97) || FuzzyEqual(fps, 30.0) then 2 * (totalMinutes - CDiv(totalMinutes, 10))
    else 0
  }

  /** The value of a match of the drop-frame expression: the non-drop value less the dropped labels. */
  function DropValue(g: Groups, fps: real): (v: int)
    ensures v == NonDropValue(g, fps) - DroppedLabels(ToIntOr0(g.g1) * 60 + ToIntOr0(g.g2), fps)
  {
    DropFields(ToIntOr0(g.g1), ToIntOr0(g.g2), ToIntOr0(g.g3), ToIntOr0(g.g4), fps)
  }

  function DropFields(h: int, m: int, s: int, f: int, fps: real): int
  {
    Scaled(h * 3600 + m * 60 + s, fps) + f - DroppedLabels(h * 60 + m, fps)
  }

  /** The value of a match of the milliseconds expression. */
  function MillisValue(g: Groups, fps: real): (v: int)
    ensures ToIntOr0(g.g4) == 0 ==> v == NonDropValue(g, fps)
    ensures fps >= 0.0 && ToIntOr0(g.g1) >= 0 && ToIntOr0(g.g2) >= 0 && ToIntOr0(g.g3) >= 0 && ToIntOr0(g.g4) >= 0 ==> v >= 0
  {
    WholeValue(g, fps) + MillisFrames(ToIntOr0(g.g4), fps)
  }

  /** `static_cast<int>(milliseconds / 1000.0 * fps)`. */
  function MillisFrames(ms: int, fps: real): (n: int)
    ensures ms >= 0 && fps >= 0.0 ==> n >= 0
    ensures ms == 0 ==> n == 0
  {
    var x := ms as real / 1000.0 * fps;
    assert ms >= 0 && fps >= 0.0 ==> x >= 0.0;
    Trunc(x)
  }

  /** The value of text without its sign: non-drop first, then drop-frame, then milliseconds. */
  function UnsignedValue(body: string, fps: real): int
  {
    match Match(body, ':')
    case Some(g) => NonDropValue(g, fps)
    case None =>
      match Match(body, ';')
      case Some(g) => DropValue(g, fps)
      case None =>
        match Match(body, '.')
        case Some(g) => MillisValue(g, fps)
        case None => 0
  }

  /**
   * `MpvObject::timecodeToFrame(tc)`: 0 without a frame rate; an integer
   * text is its own value; otherwise a leading minus sign is set aside and
   * the first of the three expressions that matches gives the value, 0 when
   * none does.
   */
  function MpvTimecodeToFrame(tc: string, fps: real): (frame: int)
    ensures fps <= 0.0 ==> frame == 0
    ensures fps > 0.0 && ToInt(tc).Some? ==> frame == ToInt(tc).value
    ensures fps > 0.0 && ToInt(tc).None? && Unmatched(if |tc| > 0 && tc[0] == '-' then tc[1..] else tc)
            ==> frame == 0
  {
    if fps <= 0.0 then 0
    else match ToInt(tc)
      case Some(v) => v
      case None =>
        var negative := |tc| > 0 && tc[0] == '-';
        var v := UnsignedValue(if negative then tc[1..] else tc, fps);
        if negative then -v else v
  }

  /** None of the three expressions matches anywhere in `body`. */
  predicate Unmatched(body: string)
  {
    Match(body, ':').None? && Match(body, ';').None? && Match(body, '.').None?
  }
}

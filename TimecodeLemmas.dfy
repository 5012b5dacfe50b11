/**
 * What the time-code conversions of `Timecode` guarantee: round trips between
 * frame numbers and text, the shape of the text, the drop-frame helpers'
 * behaviour, format detection and the error cases.
 */
module TimecodeLemmas {
  import opened CppMath
  import opened QtText
  import opened Timecode

  // ------------------------------------------------------ arithmetic steps

  /** The split of a frame count into hours, minutes, seconds and frames undoes itself. */
  lemma SplitFrames(total: int, n: int)
    requires n >= 1 && 0 <= total < 360000 * n
    ensures var perHour := n * 60 * 60;
            var perMinute := n * 60;
            var h := total / perHour;
            var m := (total % perHour) / perMinute;
            var s := ((total % perHour) % perMinute) / n;
            var f := ((total % perHour) % perMinute) % n;
            0 <= h < 100 && 0 <= m < 60 && 0 <= s < 60 && 0 <= f < n
            && (h * 3600 + m * 60 + s) * n + f == total
  {
    var perHour := n * 60 * 60;
    var perMinute := n * 60;
    assert 360000 * n == 100 * perHour;
    DivBelow(total, perHour, 100);
    var h := total / perHour;
    var r1 := total % perHour;
    assert perHour == 60 * perMinute;
    DivBelow(r1, perMinute, 60);
    var m := r1 / perMinute;
    var r2 := r1 % perMinute;
    assert perMinute == 60 * n;
    DivBelow(r2, n, 60);
    var s := r2 / n;
    var f := r2 % n;
    calc {
      (h * 3600 + m * 60 + s) * n + f;
      h * (3600 * n) + m * (60 * n) + (s * n + f);
      h * perHour + (m * perMinute + r2);
      h * perHour + r1;
      total;
    }
  }

  // ------------------------------------------------------------ text facts

  lemma TwoDigits(x: int)
    requires 0 <= x <= 99
    ensures var w := Field(x, 2);
            |w| == 2 && AllDigits(w) && Digit(w[0]) * 10 + Digit(w[1]) == x
  {
    var w := Field(x, 2);
    assert DigitsValue(w) == x;
    assert w[..1][..0] == [];
  }

  lemma ThreeDigits(x: int)
    requires 0 <= x <= 999
    ensures var w := Field(x, 3);
            |w| == 3 && AllDigits(w) && Digit(w[0]) * 100 + Digit(w[1]) * 10 + Digit(w[2]) == x
  {
    var w := Field(x, 3);
    assert DigitsValue(w) == x;
    assert DigitsValue(w) == DigitsValue(w[..2]) * 10 + Digit(w[2]);
    assert w[..2][..1] == w[..1];
    assert DigitsValue(w[..2]) == DigitsValue(w[..1]) * 10 + Digit(w[1]);
    assert w[..1][..0] == [];
    assert DigitsValue(w[..1]) == Digit(w[0]);
  }

  /** SMPTE text with two-digit fields is valid and reads back field by field. */
  lemma SmpteTextReads(h: int, m: int, s: int, sep: char, f: int)
    requires 0 <= h <= 99 && 0 <= m <= 99 && 0 <= s <= 99 && 0 <= f <= 99
    requires sep == ':' || sep == ';'
    ensures var t := SmpteText(h, m, s, sep, f);
            |t| == 11 && SmpteAt(t, 0) && IsValidSMPTE(t) && t[8] == sep
            && FindSmpte(t, 0) == Some(0) && SmpteGroups(t, 0) == Clock(h, m, s, f)
            && (';' in t <==> sep == ';') && !IsValidHMSMS(t)
  {
    TwoDigits(h);
    TwoDigits(m);
    TwoDigits(s);
    TwoDigits(f);
    SmpteJoinReads(Field(h, 2), Field(m, 2), Field(s, 2), sep, Field(f, 2));
  }

  /** Four two-digit fields joined by the SMPTE separators, whatever their values. */
  lemma SmpteJoinReads(a: string, b: string, c: string, sep: char, d: string)
    requires |a| == 2 && |b| == 2 && |c| == 2 && |d| == 2
    requires AllDigits(a) && AllDigits(b) && AllDigits(c) && AllDigits(d)
    requires sep == ':' || sep == ';'
    ensures var t := a + ":" + b + ":" + c + [sep] + d;
            |t| == 11 && SmpteAt(t, 0) && IsValidSMPTE(t) && t[8] == sep && FindSmpte(t, 0) == Some(0)
            && SmpteGroups(t, 0) == Clock(Digit(a[0]) * 10 + Digit(a[1]), Digit(b[0]) * 10 + Digit(b[1]),
                                          Digit(c[0]) * 10 + Digit(c[1]), Digit(d[0]) * 10 + Digit(d[1]))
            && (';' in t <==> sep == ';') && !IsValidHMSMS(t)
  {
    var t := a + ":" + b + ":" + c + [sep] + d;
    assert t[0..2] == a;
    assert t[3..5] == b;
    assert t[6..8] == c;
    assert t[9..11] == d;
    assert t[2] == ':' && t[5] == ':' && t[8] == sep;
    assert SmpteAt(t, 0);
    if sep == ':' {
      assert forall i :: 0 <= i < |t| ==> t[i] != ';' by {
        forall i | 0 <= i < |t| ensures t[i] != ';' {
          if i < 2 { assert t[i] == t[0..2][i]; }
          else if 3 <= i < 5 { assert t[i] == t[3..5][i - 3]; }
          else if 6 <= i < 8 { assert t[i] == t[6..8][i - 6]; }
          else if 9 <= i { assert t[i] == t[9..11][i - 9]; }
        }
      }
    }
  }

  /** HH:MM:SS.mmm text with fields in range is valid and reads back field by field. */
  lemma HmsmsTextReads(h: int, m: int, s: int, ms: int)
    requires 0 <= h <= 99 && 0 <= m <= 99 && 0 <= s <= 99 && 0 <= ms <= 999
    ensures var t := HmsmsText(h, m, s, ms);
            |t| == 12 && HmsmsAt(t, 0) && IsValidHMSMS(t) && !IsValidSMPTE(t)
            && FindHmsms(t, 0) == Some(0) && HmsmsGroups(t, 0) == Clock(h, m, s, ms)
  {
    TwoDigits(h);
    TwoDigits(m);
    TwoDigits(s);
    ThreeDigits(ms);
    var t := HmsmsText(h, m, s, ms);
    var a, b, c, d := Field(h, 2), Field(m, 2), Field(s, 2), Field(ms, 3);
    assert t == a + ":" + b + ":" + c + "." + d;
    assert |t| == 12;
    assert t[0] == a[0] && t[1] == a[1] && t[3] == b[0] && t[4] == b[1];
    assert t[6] == c[0] && t[7] == c[1] && t[9] == d[0] && t[10] == d[1] && t[11] == d[2];
    assert t[2] == ':' && t[5] == ':' && t[8] == '.';
    assert HmsmsAt(t, 0);
    assert IsValidHMSMS(t);
  }

  // --------------------------------------------------------- SMPTE text

  /** Below 100 hours the drop-frame adjustment stays in `[0, frame]`. */
  lemma FrameToDropFrameBounds(frame: int, fps: real)
    requires frame >= 0
    ensures 0 <= FrameToDropFrame(frame, fps) <= frame
  {
    if IsDropFrame(fps) && Near2997(fps) {
      var minutes := frame / 1800;
      DivBelow(minutes, 10, minutes / 10 + 1);
      assert (minutes / 10) * 18 + (minutes % 10) * 2 <= 2 * minutes;
      assert minutes * 1800 <= frame;
    }
  }

  /** The fields `frameToSMPTE` writes for a non-negative total below 100 hours. */
  function SmpteFields(total: int, n: int): (c: Clock)
    requires n >= 1 && 0 <= total < 360000 * n
    ensures 0 <= c.hours < 100 && 0 <= c.minutes < 60 && 0 <= c.seconds < 60 && 0 <= c.frames < n
    ensures (c.hours * 3600 + c.minutes * 60 + c.seconds) * n + c.frames == total
  {
    SplitFrames(total, n);
    var perHour := n * 60 * 60;
    var perMinute := n * 60;
    Clock(total / perHour, (total % perHour) / perMinute,
          ((total % perHour) % perMinute) / n, ((total % perHour) % perMinute) % n)
  }

  lemma FrameToSMPTEText(frame: int, fps: real, dropFrame: bool)
    requires fps >= 0.5 && Nominal(fps) <= 100
    requires 0 <= frame < 360000 * Nominal(fps)
    ensures var total := if dropFrame && (Near2997(fps) || Near5994(fps)) then FrameToDropFrame(frame, fps) else frame;
            0 <= total <= frame
            && var c := SmpteFields(total, Nominal(fps));
            FrameToSMPTE(frame, fps, dropFrame) == SmpteText(c.hours, c.minutes, c.seconds, if dropFrame then ';' else ':', c.frames)
  {
    FrameToDropFrameBounds(frame, fps);
  }

  lemma SMPTEToFrameOfText(c: Clock, sep: char, fps: real, dropFrame: bool, t: string)
    requires 0 <= c.hours <= 99 && 0 <= c.minutes <= 99 && 0 <= c.seconds <= 99 && 0 <= c.frames <= 99
    requires sep == ':' || sep == ';'
    requires fps > 0.0
    requires t == SmpteText(c.hours, c.minutes, c.seconds, sep, c.frames)
    ensures SMPTEToFrame(t, fps, dropFrame)
            == if dropFrame && (Near2997(fps) || Near5994(fps)) then DropFrameToFrame(ClockFrames(c, Nominal(fps)), fps)
               else ClockFrames(c, Nominal(fps))
  {
    SmpteTextReads(c.hours, c.minutes, c.seconds, sep, c.frames);
    assert IsValidSMPTE(t) && FindSmpte(t, 0) == Some(0) && SmpteGroups(t, 0) == c;
  }

  /**
   * The SMPTE text of a frame below 100 hours is valid SMPTE time code: its
   * minutes and seconds are below 60, its frames below the nominal rate, its
   * separator is ';' exactly for drop-frame output, and format detection
   * recognises it as the form that was written.
   */
  lemma FrameToSMPTEIsValid(frame: int, fps: real, dropFrame: bool)
    requires fps >= 0.5 && Nominal(fps) <= 100
    requires 0 <= frame < 360000 * Nominal(fps)
    ensures var t := FrameToSMPTE(frame, fps, dropFrame);
            IsValidSMPTE(t) && (t[8] == ';' <==> dropFrame)
            && SmpteGroups(t, 0).minutes < 60 && SmpteGroups(t, 0).seconds < 60
            && SmpteGroups(t, 0).frames < Nominal(fps)
            && DetectFormat(t) == (if dropFrame then SmpteDropFrame else SmpteNonDrop)
  {
    FrameToSMPTEText(frame, fps, dropFrame);
    var total := if dropFrame && (Near2997(fps) || Near5994(fps)) then FrameToDropFrame(frame, fps) else frame;
    var c := SmpteFields(total, Nominal(fps));
    SmpteTextReads(c.hours, c.minutes, c.seconds, if dropFrame then ';' else ':', c.frames);
  }

  /**
   * Reading back the SMPTE text of a frame gives the frame, for every rate
   * whose nominal value is 1..100 and every frame below 100 hours, except
   * drop-frame text at 29.97 fps (see `DropFrameRoundTripBreaks`).
   */
  lemma SMPTERoundTrip(frame: int, fps: real, dropFrame: bool)
    requires fps >= 0.5 && Nominal(fps) <= 100
    requires 0 <= frame < 360000 * Nominal(fps)
    requires !(dropFrame && Near2997(fps))
    ensures SMPTEToFrame(FrameToSMPTE(frame, fps, dropFrame), fps, dropFrame) == frame
  {
    var n := Nominal(fps);
    var c := SmpteFields(frame, n);
    var sep := if dropFrame then ';' else ':';
    var t := SmpteText(c.hours, c.minutes, c.seconds, sep, c.frames);
    SMPTERoundTripText(frame, fps, dropFrame, n, c, sep, t);
  }

  lemma SMPTERoundTripText(frame: int, fps: real, dropFrame: bool, n: int, c: Clock, sep: char, t: string)
    requires fps >= 0.5 && n == Nominal(fps) && n <= 100
    requires 0 <= frame < 360000 * n
    requires !(dropFrame && Near2997(fps))
    requires c == SmpteFields(frame, n) && sep == (if dropFrame then ';' else ':')
    requires t == SmpteText(c.hours, c.minutes, c.seconds, sep, c.frames)
    ensures FrameToSMPTE(frame, fps, dropFrame) == t
    ensures SMPTEToFrame(t, fps, dropFrame) == frame
  {
    if dropFrame {
      DropFrameIdentityOffNtsc(frame, fps);
    }
    FrameToSMPTEText(frame, fps, dropFrame);
    SMPTEToFrameOfText(c, sep, fps, dropFrame, t);
    assert ClockFrames(c, n) == frame;
  }

  /**
   * The drop-frame helpers are not inverse: at 29.97 fps frame 1799 is written
   * "00:00:59;29" and that text is read back as frame 1801.
   */
  lemma DropFrameRoundTripBreaks()
    ensures FrameToSMPTE(1799, 29.97, true) == "00:00:59;29"
    ensures SMPTEToFrame("00:00:59;29", 29.97, true) == 1801
  {
    FieldsOf1799();
    assert SmpteText(0, 0, 59, ';', 29) == "00:00:59;29";
    FrameOf1799();
    ReadingOf1799();
  }

  lemma FieldsOf1799()
    ensures Field(0, 2) == "00" && Field(59, 2) == "59" && Field(29, 2) == "29"
  {
    assert Decimal(0) == "0";
    assert Decimal(59) == "59";
    assert Decimal(29) == "29";
  }

  lemma FrameOf1799()
    ensures FrameToSMPTE(1799, 29.97, true) == SmpteText(0, 0, 59, ';', 29)
  {
    assert Nominal(29.97) == 30;
    assert Near2997(29.97) && IsDropFrame(29.97);
    assert FrameToDropFrame(1799, 29.97) == 1799;
    assert CDiv(1799, 108000) == 0 && CMod(1799, 108000) == 1799;
    assert CDiv(1799, 1800) == 0 && CMod(1799, 1800) == 1799;
    assert CDiv(1799, 30) == 59 && CMod(1799, 30) == 29;
  }

  lemma ReadingOf1799()
    ensures SMPTEToFrame("00:00:59;29", 29.97, true) == 1801
  {
    var t := "00:00:59;29";
    ClockOf1799Text();
    assert Nominal(29.97) == 30;
    assert ClockFrames(Clock(0, 0, 59, 29), 30) == 1799;
    LabelOf1799();
  }

  lemma ClockOf1799Text()
    ensures IsValidSMPTE("00:00:59;29") && FindSmpte("00:00:59;29", 0) == Some(0)
    ensures SmpteGroups("00:00:59;29", 0) == Clock(0, 0, 59, 29)
  {
    var t := "00:00:59;29";
    assert SmpteAt(t, 0);
    assert SmpteGroups(t, 0) == Clock(0, 0, 59, 29);
  }

  lemma LabelOf1799()
    ensures Near2997(29.97) && DropFrameToFrame(1799, 29.97) == 1801
  {
    assert Near2997(29.97) && IsDropFrame(29.97);
    assert CDiv(1799, 17982) == 0 && CMod(1799, 17982) == 1799 && CDiv(1799, 1798) == 1;
  }

  // ------------------------------------------------------- drop-frame facts

  /** Off the 29.97 family both helpers are the identity. */
  lemma DropFrameIdentityOffNtsc(x: int, fps: real)
    requires !Near2997(fps)
    ensures FrameToDropFrame(x, fps) == x && DropFrameToFrame(x, fps) == x
  {
  }

  /** At 29.97 fps a frame keeps its number exactly when no minute has gone by. */
  lemma FrameToDropFrameFixedPoints(frame: int, fps: real)
    requires Near2997(fps) && frame >= 0
    ensures FrameToDropFrame(frame, fps) == frame <==> frame < 1800
  {
    FrameToDropFrameBounds(frame, fps);
    if frame >= 1800 {
      var minutes := frame / 1800;
      assert minutes >= 1;
      assert (minutes / 10) * 18 + (minutes % 10) * 2 > 0;
    }
  }

  /** At 29.97 fps a label is moved up, and exactly when it is past the first 1798. */
  lemma DropFrameToFrameFixedPoints(code: int, fps: real)
    requires Near2997(fps) && code >= 0
    ensures DropFrameToFrame(code, fps) >= code
    ensures DropFrameToFrame(code, fps) == code <==> code < 1798
  {
  }

  /** Ten minutes of frames (18000) are ten minutes of labels (17982), and back. */
  lemma DropFrameTenMinuteShift(x: int, fps: real)
    requires Near2997(fps) && x >= 0
    ensures FrameToDropFrame(x + 18000, fps) == FrameToDropFrame(x, fps) + 17982
    ensures DropFrameToFrame(x + 17982, fps) == DropFrameToFrame(x, fps) + 18000
  {
    assert (x + 18000) / 1800 == x / 1800 + 10;
    assert (x / 1800 + 10) / 10 == x / 1800 / 10 + 1;
    assert (x / 1800 + 10) % 10 == x / 1800 % 10;
    assert (x + 17982) / 17982 == x / 17982 + 1;
    assert (x + 17982) % 17982 == x % 17982;
  }

  // --------------------------------------------------- HH:MM:SS.mmm text

  /** Below 100 hours the HH:MM:SS.mmm text is valid and detected as such. */
  lemma FrameToHMSMSIsValid(frame: int, fps: real)
    requires fps > 0.0 && frame >= 0 && frame as real / fps < 360000.0
    ensures IsValidHMSMS(FrameToHMSMS(frame, fps)) && DetectFormat(FrameToHMSMS(frame, fps)) == HhMmSsMs
    ensures HmsmsGroups(FrameToHMSMS(frame, fps), 0) == Millis(Split(frame as real / fps))
  {
    SplitBelow100Hours(frame as real / fps);
    SplitTextReads(Split(frame as real / fps));
  }

  /** The clock a split shows: its fraction of a second as whole milliseconds. */
  function Millis(p: SecondsSplit): (c: Clock)
    requires p.fraction >= 0.0
    ensures c.hours == p.hours && c.minutes == p.minutes && c.seconds == p.seconds
    ensures c.frames as real / 1000.0 <= p.fraction < c.frames as real / 1000.0 + 0.001
  {
    Clock(p.hours, p.minutes, p.seconds, Trunc(p.fraction * 1000.0))
  }

  lemma SplitBelow100Hours(total: real)
    requires 0.0 <= total < 360000.0
    ensures 0 <= Split(total).hours <= 99
  {
    assert total / 3600.0 < 100.0;
  }

  lemma SplitTextReads(p: SecondsSplit)
    requires 0 <= p.hours <= 99 && 0 <= p.minutes < 60 && 0 <= p.seconds < 60 && 0.0 <= p.fraction < 1.0
    ensures IsValidHMSMS(SplitText(p)) && DetectFormat(SplitText(p)) == HhMmSsMs
    ensures FindHmsms(SplitText(p), 0) == Some(0) && HmsmsGroups(SplitText(p), 0) == Millis(p)
  {
    HmsmsTextReads(p.hours, p.minutes, p.seconds, Trunc(p.fraction * 1000.0));
  }

  /** Reading the HH:MM:SS.mmm text back gives the frame under the time it shows. */
  lemma SplitTextReadsBack(p: SecondsSplit, fps: real)
    requires 0 <= p.hours <= 99 && 0 <= p.minutes < 60 && 0 <= p.seconds < 60 && 0.0 <= p.fraction < 1.0
    requires fps > 0.0
    ensures HMSMSToFrame(SplitText(p), fps) == FrameAt(ClockSeconds(Millis(p)), fps)
  {
    SplitTextReads(p);
    HMSMSToFrameAtStart(SplitText(p), fps);
    SameClockSameFrame(HmsmsGroups(SplitText(p), 0), Millis(p), fps);
  }

  lemma HMSMSToFrameAtStart(t: string, fps: real)
    requires IsValidHMSMS(t) && fps > 0.0
    ensures HMSMSToFrame(t, fps) == FrameAt(ClockSeconds(HmsmsGroups(t, 0)), fps)
  {
    assert FindHmsms(t, 0) == Some(0);
  }

  lemma SameClockSameFrame(c1: Clock, c2: Clock, fps: real)
    requires c1 == c2
    ensures FrameAt(ClockSeconds(c1), fps) == FrameAt(ClockSeconds(c2), fps)
  {
  }

  /** The time in seconds the HH:MM:SS.mmm text of a split names. */
  lemma ShownTime(p: SecondsSplit)
    requires p.fraction >= 0.0
    ensures ClockSeconds(Millis(p)) <= (p.hours * 3600 + p.minutes * 60 + p.seconds) as real + p.fraction
    ensures (p.hours * 3600 + p.minutes * 60 + p.seconds) as real + p.fraction < ClockSeconds(Millis(p)) + 0.001
  {
  }

  /**
   * Reading back the HH:MM:SS.mmm text of a frame loses at most one frame
   * (the milliseconds are truncated), at rates up to 1000 fps.
   */
  lemma HMSMSRoundTrip(frame: int, fps: real)
    requires 0.0 < fps <= 1000.0 && frame >= 0 && frame as real / fps < 360000.0
    ensures frame - 1 <= HMSMSToFrame(FrameToHMSMS(frame, fps), fps) <= frame
  {
    SplitBelow100Hours(frame as real / fps);
    SplitTextReadsBack(Split(frame as real / fps), fps);
    ShownTime(Split(frame as real / fps));
    BackWithinOneFrame(frame, fps, frame as real / fps, ClockSeconds(Millis(Split(frame as real / fps))));
  }

  /** A time at most a millisecond early lands on the frame or the one before it. */
  lemma BackWithinOneFrame(frame: int, fps: real, total: real, back: real)
    requires 0.0 < fps <= 1000.0 && frame >= 0 && total == frame as real / fps
    requires 0.0 <= back <= total < back + 0.001
    ensures frame - 1 <= FrameAt(back, fps) <= frame
  {
    assert total * fps == frame as real;
    assert (total - back) * fps >= 0.0;
    assert (total - back) * fps < 0.001 * fps;
    assert back * fps >= 0.0;
  }

  /**
   * The default custom pattern "%H:%M:%S.%f" produces the HH:MM:SS.mmm text
   * of the same frame.
   */
  lemma CustomDefaultIsHMSMS(frame: int, fps: real)
    requires fps > 0.0 && frame >= 0
    ensures FrameToCustom(frame, fps, DefaultCustomPattern) == FrameToHMSMS(frame, fps)
  {
    FillDefaultPattern(Split(frame as real / fps), Number(frame));
    assert FrameToHMSMS(frame, fps) == SplitText(Split(frame as real / fps));
  }

  /** The default pattern filled with the fields of `p` is the HH:MM:SS.mmm text of `p`. */
  lemma FillDefaultPattern(p: SecondsSplit, frameText: string)
    requires p.hours >= 0 && p.minutes >= 0 && p.seconds >= 0 && p.fraction >= 0.0
    ensures FillPattern(DefaultCustomPattern, p, frameText) == SplitText(p)
  {
    FieldsHaveNoPercent(p.hours, p.minutes, p.seconds, Trunc(p.fraction * 1000.0));
    FillSplitFields(p, frameText, Field(p.hours, 2), Field(p.minutes, 2), Field(p.seconds, 2),
                    Field(Trunc(p.fraction * 1000.0), 3));
  }

  lemma FillSplitFields(p: SecondsSplit, frameText: string, hh: string, mm: string, ss: string, ms: string)
    requires hh == Field(p.hours, 2) && mm == Field(p.minutes, 2) && ss == Field(p.seconds, 2)
    requires ms == Field(Trunc(p.fraction * 1000.0), 3)
    requires NoPercent(hh) && NoPercent(mm) && NoPercent(ss) && NoPercent(ms)
    ensures FillPattern(DefaultCustomPattern, p, frameText) == SplitText(p)
  {
    SplitTextOf(p, hh, mm, ss, ms);
    FillDefaultFields(hh, mm, ss, ms, frameText);
  }

  lemma SplitTextOf(p: SecondsSplit, hh: string, mm: string, ss: string, ms: string)
    requires hh == Field(p.hours, 2) && mm == Field(p.minutes, 2) && ss == Field(p.seconds, 2)
    requires ms == Field(Trunc(p.fraction * 1000.0), 3)
    ensures SplitText(p) == hh + ":" + mm + ":" + ss + "." + ms
  {
  }

  lemma FieldsHaveNoPercent(h: int, m: int, sec: int, ms: int)
    requires h >= 0 && m >= 0 && sec >= 0 && ms >= 0
    ensures NoPercent(Field(h, 2)) && NoPercent(Field(m, 2)) && NoPercent(Field(sec, 2)) && NoPercent(Field(ms, 3))
  {
    DigitsHaveNoPercent(Field(h, 2));
    DigitsHaveNoPercent(Field(m, 2));
    DigitsHaveNoPercent(Field(sec, 2));
    DigitsHaveNoPercent(Field(ms, 3));
  }

  lemma FillDefaultFields(hh: string, mm: string, ss: string, ms: string, frameText: string)
    requires NoPercent(hh) && NoPercent(mm) && NoPercent(ss) && NoPercent(ms)
    ensures FillFields(DefaultCustomPattern, hh, mm, ss, ms, frameText) == hh + ":" + mm + ":" + ss + "." + ms
  {
    FillHours(hh);
    FillMinutes(hh, mm);
    FillSeconds(hh + ":" + mm, ss);
    FillMillis(hh + ":" + mm + ":" + ss, ms);
    NoFrameField(hh, mm, ss, ms, frameText);
  }

  lemma FillHours(hh: string)
    ensures ReplaceAll(DefaultCustomPattern, "%H", hh) == hh + ":%M:%S.%f"
  {
    DefaultPatternSplit();
    FillFirst("%H", hh, ":%M:%S.%f");
  }

  lemma DefaultPatternSplit()
    ensures DefaultCustomPattern == "%H" + ":%M:%S.%f"
  {
  }

  /** Filling a key at the very front of the text when its letter does not occur later. */
  lemma FillFirst(key: string, value: string, rest: string)
    requires |key| == 2 && key[0] == '%' && key[1] !in rest
    ensures ReplaceAll(key + rest, key, value) == value + rest
  {
    ReplaceAllFront(rest, key, value);
    ReplaceAllAbsent(rest, key, value);
  }

  lemma FillMinutes(hh: string, mm: string)
    requires NoPercent(hh)
    ensures ReplaceAll(hh + ":%M:%S.%f", "%M", mm) == hh + ":" + mm + ":%S.%f"
  {
    assert hh + ":%M:%S.%f" == (hh + ":") + "%M" + ":%S.%f";
    FillNext(hh + ":", "%M", mm, ":%S.%f");
  }

  lemma FillSeconds(a: string, ss: string)
    requires NoPercent(a)
    ensures ReplaceAll(a + ":%S.%f", "%S", ss) == a + ":" + ss + ".%f"
  {
    assert a + ":%S.%f" == (a + ":") + "%S" + ".%f";
    FillNext(a + ":", "%S", ss, ".%f");
  }

  lemma FillMillis(a: string, ms: string)
    requires NoPercent(a)
    ensures ReplaceAll(a + ".%f", "%f", ms) == a + "." + ms
  {
    assert a + ".%f" == (a + ".") + "%f" + [];
    FillNext(a + ".", "%f", ms, []);
    assert (a + ".") + ms + [] == a + "." + ms;
  }

  /**
   * Filling a two-character `%`-key whose letter does not occur later: the
   * text before it has no `%`, so only this occurrence is replaced.
   */
  lemma FillNext(a: string, key: string, value: string, rest: string)
    requires |key| == 2 && key[0] == '%' && NoPercent(a) && key[1] !in rest
    ensures ReplaceAll(a + key + rest, key, value) == a + value + rest
  {
    assert a + key + rest == a + (key + rest);
    ReplaceAllSkips(a, key + rest, key, value);
    ReplaceAllFront(rest, key, value);
    ReplaceAllAbsent(rest, key, value);
    assert a + (value + rest) == a + value + rest;
  }

  lemma NoFrameField(hh: string, mm: string, ss: string, ms: string, frame: string)
    requires NoPercent(hh) && NoPercent(mm) && NoPercent(ss) && NoPercent(ms)
    ensures var t := hh + ":" + mm + ":" + ss + "." + ms;
            ReplaceAll(t, "%F", frame) == t
  {
    var t := hh + ":" + mm + ":" + ss + "." + ms;
    NoPercentJoin(hh, mm, ss, ms);
    ReplaceAllSkips(t, "", "%F", frame);
    assert t + "" == t;
  }

  lemma NoPercentJoin(hh: string, mm: string, ss: string, ms: string)
    requires NoPercent(hh) && NoPercent(mm) && NoPercent(ss) && NoPercent(ms)
    ensures NoPercent(hh + ":" + mm + ":" + ss + "." + ms)
  {
  }

  predicate NoPercent(s: string)
  {
    forall i :: 0 <= i < |s| ==> s[i] != '%'
  }

  lemma DigitsHaveNoPercent(s: string)
    requires AllDigits(s) || (|s| > 0 && s[0] == '-' && AllDigits(s[1..]))
    ensures NoPercent(s)
  {
    if !AllDigits(s) {
      forall i | 0 < i < |s| ensures s[i] != '%' {
        assert s[i] == s[1..][i - 1];
      }
    }
  }

  // ------------------------------------------------------ whole formats

  /** Plain frame numbers read back exactly for every `int` frame. */
  lemma FramesOnlyRoundTrip(frame: int, fps: real)
    requires fps > 0.0 && InInt32(frame)
    ensures TimecodeToFrame(FrameToTimecode(frame, fps, FramesOnly), fps, FramesOnly) == frame
  {
    NumberToInt(frame);
  }

  /**
   * In the frames-only format the text of a position reads back as the
   * start of the frame under it: never after the position, and less than
   * one frame before it.
   */
  lemma PositionRoundTripFramesOnly(position: real, fps: real)
    requires fps > 0.0 && position >= 0.0 && InInt32(FrameAt(position, fps))
    ensures TimecodeToPosition(PositionToTimecode(position, fps, FramesOnly), fps, FramesOnly)
            == FrameAt(position, fps) as real / fps
    ensures FrameAt(position, fps) as real / fps <= position < FrameAt(position, fps) as real / fps + 1.0 / fps
  {
    var f := FrameAt(position, fps);
    FrameUnder(position, fps);
    StartOfFrame(position, fps, f);
    var t := PositionToTimecode(position, fps, FramesOnly);
    assert t == Number(f);
    FramesOnlyTextReadsBack(t, f, fps);
  }

  /** The frame at a time is the whole part of the time in frames. */
  lemma FrameUnder(position: real, fps: real)
    requires fps > 0.0 && position >= 0.0
    ensures 0 <= FrameAt(position, fps)
    ensures FrameAt(position, fps) as real <= position * fps < FrameAt(position, fps) as real + 1.0
  {
    var x := position * fps;
    assert x >= 0.0;
    assert FrameAt(position, fps) == Trunc(x);
  }

  /** The text of frame `f` names its start time. */
  lemma FramesOnlyTextReadsBack(t: string, f: int, fps: real)
    requires fps > 0.0 && InInt32(f) && t == Number(f)
    ensures TimecodeToPosition(t, fps, FramesOnly) == f as real / fps
  {
    NumberToInt(f);
  }

  /** A frame `f` under `position` starts at most one frame before it. */
  lemma StartOfFrame(position: real, fps: real, f: int)
    requires fps > 0.0 && f as real <= position * fps < f as real + 1.0
    ensures f as real / fps <= position < f as real / fps + 1.0 / fps
  {
    var start := f as real / fps;
    assert start * fps == f as real;
    assert (start + 1.0 / fps) * fps == f as real + 1.0;
  }

  /**
   * A text is detected as a plain frame number exactly when it is the
   * shortest decimal spelling of a value in `[0, INT_MAX]`.
   */
  lemma DetectFramesOnlyExactly(s: string)
    ensures DetectFormat(s) == FramesOnly <==> exists n :: 0 <= n <= IntMax && s == Decimal(n)
  {
    CanonicalDecimal(s);
    if exists n :: 0 <= n <= IntMax && s == Decimal(n) {
      var n :| 0 <= n <= IntMax && s == Decimal(n);
      assert |s| > 2 ==> IsDigit(s[2]);
      assert !IsValidSMPTE(s) && !IsValidHMSMS(s);
    }
  }

  /** SMPTE texts of two-digit fields are parsed back to the same fields. */
  lemma FormatParseSmpte(c: Clock, dropFrame: bool)
    requires 0 <= c.hours <= 99 && 0 <= c.minutes <= 99 && 0 <= c.seconds <= 99 && 0 <= c.frames <= 99
    ensures var format := if dropFrame then SmpteDropFrame else SmpteNonDrop;
            ParseTimecode(FormatTimecode(c.hours, c.minutes, c.seconds, c.frames, format), format) == c
  {
    SmpteTextReads(c.hours, c.minutes, c.seconds, if dropFrame then ';' else ':', c.frames);
  }

  /**
   * Frame-number texts at 30 frames per second are parsed back to the same
   * fields while the fields are in range and the total fits in an `int`.
   */
  lemma FormatParseFramesOnly(c: Clock)
    requires c.hours >= 0 && 0 <= c.minutes < 60 && 0 <= c.seconds < 60 && 0 <= c.frames < 30
    requires c.hours * 108000 + c.minutes * 1800 + c.seconds * 30 + c.frames <= IntMax
    ensures ParseTimecode(FormatTimecode(c.hours, c.minutes, c.seconds, c.frames, FramesOnly), FramesOnly) == c
  {
    var total := c.hours * 108000 + c.minutes * 1800 + c.seconds * 30 + c.frames;
    var t := FormatTimecode(c.hours, c.minutes, c.seconds, c.frames, FramesOnly);
    assert t == Number(total);
    NumberToInt(total);
    assert ToIntOr0(t) == total;
    ParseFramesOnlyOf(t, c);
  }

  lemma ParseFramesOnlyOf(t: string, c: Clock)
    requires c.hours >= 0 && 0 <= c.minutes < 60 && 0 <= c.seconds < 60 && 0 <= c.frames < 30
    requires ToIntOr0(t) == c.hours * 108000 + c.minutes * 1800 + c.seconds * 30 + c.frames
    ensures ParseTimecode(t, FramesOnly) == c
  {
    var afterMinutes := c.seconds * 30 + c.frames;
    var afterHours := c.minutes * 1800 + afterMinutes;
    QuotientOfParts(ToIntOr0(t), c.hours, afterHours, 108000);
    QuotientOfParts(afterHours, c.minutes, afterMinutes, 1800);
    QuotientOfParts(afterMinutes, c.seconds, c.frames, 30);
  }

  /**
   * HH:MM:SS.mmm texts keep the hours, minutes and seconds; the frames pass
   * through milliseconds at 30 fps and come back at most one lower, exactly
   * when they are a multiple of 3.
   */
  lemma FormatParseHmsms(c: Clock)
    requires 0 <= c.hours <= 99 && 0 <= c.minutes <= 99 && 0 <= c.seconds <= 99 && 0 <= c.frames < 30
    ensures var back := ParseTimecode(FormatTimecode(c.hours, c.minutes, c.seconds, c.frames, HhMmSsMs), HhMmSsMs);
            back.hours == c.hours && back.minutes == c.minutes && back.seconds == c.seconds
            && c.frames - 1 <= back.frames <= c.frames
            && (c.frames % 3 == 0 ==> back.frames == c.frames)
  {
    var ms := CDiv(c.frames * 1000, 30);
    assert ms * 30 <= c.frames * 1000 < ms * 30 + 30;
    HmsmsTextReads(c.hours, c.minutes, c.seconds, ms);
    var back := CDiv(ms * 30, 1000);
    assert back * 1000 <= ms * 30 < back * 1000 + 1000;
    if c.frames % 3 == 0 {
      var k := c.frames / 3;
      assert c.frames == 3 * k;
      assert ms == 100 * k;
    }
  }

  /**
   * Below 100 hours every listed format produces text that its own validity
   * check accepts and that is detected as that format, except that the
   * default custom pattern produces HH:MM:SS.mmm text.
   */
  lemma FrameToTimecodeIsValid(frame: int, fps: real, format: Format)
    requires !format.Unlisted?
    requires fps >= 0.5 && Nominal(fps) <= 100 && InInt32(frame)
    requires 0 <= frame < 360000 * Nominal(fps) && frame as real / fps < 360000.0
    ensures IsValidTimecode(FrameToTimecode(frame, fps, format), format)
    ensures DetectFormat(FrameToTimecode(frame, fps, format)) == (if format == Custom then HhMmSsMs else format)
  {
    match format
    case SmpteNonDrop => FrameToSMPTEIsValid(frame, fps, false);
    case SmpteDropFrame => FrameToSMPTEIsValid(frame, fps, true);
    case HhMmSsMs => FrameToHMSMSIsValid(frame, fps);
    case FramesOnly => NumberIsFramesOnly(frame);
    case Custom => CustomIsValid(frame, fps);
  }

  lemma NumberIsFramesOnly(frame: int)
    requires 0 <= frame <= IntMax
    ensures ToIntOr0(Number(frame)) == frame && DetectFormat(Number(frame)) == FramesOnly
  {
    NumberToInt(frame);
    assert Number(frame) == Decimal(frame);
    DetectFramesOnlyExactly(Number(frame));
  }

  lemma CustomIsValid(frame: int, fps: real)
    requires fps > 0.0 && frame >= 0 && frame as real / fps < 360000.0
    ensures FrameToCustom(frame, fps, DefaultCustomPattern) != []
    ensures DetectFormat(FrameToCustom(frame, fps, DefaultCustomPattern)) == HhMmSsMs
  {
    CustomDefaultIsHMSMS(frame, fps);
    FrameToHMSMSIsValid(frame, fps);
  }

  /** Without a match of the format's expression, parsing yields all zeros. */
  lemma ParseWithoutMatch(timecode: string, format: Format)
    requires format.SmpteNonDrop? || format.SmpteDropFrame? ==> FindSmpte(timecode, 0).None?
    requires format.HhMmSsMs? ==> FindHmsms(timecode, 0).None?
    requires format.FramesOnly? ==> ToIntOr0(timecode) == 0
    ensures ParseTimecode(timecode, format) == Clock(0, 0, 0, 0)
  {
  }

  // ------------------------------------------------------ embedded time code

  /** "TIMECODE" and "Timecode" are the key "timecode" to `av_dict_get`. */
  lemma TimecodeKeySpellings()
    ensures SameKey("TIMECODE", "timecode") && SameKey("Timecode", "timecode")
    ensures !SameKey("timecodes", "timecode") && !SameKey("time_code", "timecode")
  {
    var t, u, l := "TIMECODE", "Timecode", "timecode";
    assert UpperChar(t[0]) == UpperChar(l[0]) == 'T' && UpperChar(t[1]) == UpperChar(l[1]) == 'I';
    assert UpperChar(t[2]) == UpperChar(l[2]) == 'M' && UpperChar(t[3]) == UpperChar(l[3]) == 'E';
    assert UpperChar(t[4]) == UpperChar(l[4]) == 'C' && UpperChar(t[5]) == UpperChar(l[5]) == 'O';
    assert UpperChar(t[6]) == UpperChar(l[6]) == 'D' && UpperChar(t[7]) == UpperChar(l[7]) == 'E';
    assert forall k :: 1 <= k < 8 ==> u[k] == l[k];
    assert UpperChar("time_code"[4]) != UpperChar(l[4]);
  }

  /** An entry whose key is "timecode" in any letter case, with no earlier one, gives the time code. */
  lemma EmbeddedTimecodeAnyCase(before: seq<(string, string)>, key: string, value: string, after: seq<(string, string)>)
    requires SameKey(key, "timecode")
    requires forall i :: 0 <= i < |before| ==> !SameKey(before[i].0, "timecode")
    ensures ExtractEmbeddedTimecode(Some(DecodedFrame(Some(before + [(key, value)] + after)))) == value
    ensures HasEmbeddedTimecode(Some(DecodedFrame(Some(before + [(key, value)] + after)))) <==> value != []
  {
    var m := before + [(key, value)] + after;
    assert m[|before|] == (key, value);
    assert forall j :: 0 <= j < |before| ==> m[j] == before[j];
    assert FirstKeyAt(m, "timecode", |before|);
  }

  /** A frame tagged "TIMECODE" carries its time code; of two entries the first is taken. */
  lemma UpperCaseTagExample(v: string, w: string)
    ensures ExtractEmbeddedTimecode(Some(DecodedFrame(Some([("TIMECODE", v)])))) == v
    ensures ExtractEmbeddedTimecode(Some(DecodedFrame(Some([("Timecode", v), ("timecode", w)])))) == v
  {
    TimecodeKeySpellings();
    EmbeddedTimecodeAnyCase([], "TIMECODE", v, []);
    assert [] + [("TIMECODE", v)] + [] == [("TIMECODE", v)];
    EmbeddedTimecodeAnyCase([], "Timecode", v, [("timecode", w)]);
    assert [] + [("Timecode", v)] + [("timecode", w)] == [("Timecode", v), ("timecode", w)];
  }
}

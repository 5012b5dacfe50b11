/**
 * What the mpv front end's time-code conversions guarantee: integer text
 * and frames-only text read back as themselves, non-drop text of a whole
 * frame rate reads back as the frame it was written for (negative frames
 * included), and drop-frame text loses exactly the labels the parser
 * subtracts.
 */
module MpvTimecodeLemmas {
  import opened CppMath
  import opened QtText
  import opened Timecode
  import opened TimecodeLemmas
  import opened MpvTimecode

  // ------------------------------------------------------- reading digits

  /** A run of digits that fits in an `int` is read by `toInt` as its value. */
  lemma FieldToInt(x: int, width: nat)
    requires 0 <= x <= IntMax
    ensures ToIntOr0(Field(x, width)) == x
  {
    DigitsToInt(Field(x, width));
  }

  /** The run at the front of `a + rest` is `a` when `rest` does not start with a digit. */
  lemma {:induction false} RunLengthOfJoin(a: string, rest: string)
    requires AllDigits(a) && (rest == [] || !IsDigit(rest[0]))
    ensures RunLength(a + rest) == |a|
  {
    if a != [] {
      assert (a + rest)[1..] == a[1..] + rest;
      RunLengthOfJoin(a[1..], rest);
    } else {
      assert a + rest == rest;
    }
  }

  /** One group and its separator taken off the front. */
  lemma Peel(a: string, sep: char, rest: string)
    requires |a| > 0 && AllDigits(a) && !IsDigit(sep)
    ensures var s := a + [sep] + rest;
            RunLength(s) == |a| && |a| < |s| && s[|a|] == sep && s[..|a|] == a && s[|a| + 1..] == rest
  {
    var s := a + [sep] + rest;
    assert s == a + ([sep] + rest);
    RunLengthOfJoin(a, [sep] + rest);
  }

  /** Four runs of digits joined by `:`, `:` and `last` are matched at the front as those four groups. */
  lemma GroupsOfJoin(a: string, b: string, c: string, d: string, last: char)
    requires |a| > 0 && |b| > 0 && |c| > 0 && |d| > 0
    requires AllDigits(a) && AllDigits(b) && AllDigits(c) && AllDigits(d) && !IsDigit(last)
    ensures GroupsAt(a + [':'] + (b + [':'] + (c + [last] + d)), last) == Some(Groups(a, b, c, d))
  {
    Peel(a, ':', b + [':'] + (c + [last] + d));
    Peel(b, ':', c + [last] + d);
    Peel(c, last, d);
    RunLengthOfJoin(d, []);
    assert d + [] == d;
  }

  /** A match at the front is the leftmost one. */
  lemma MatchAtFront(s: string, last: char)
    requires !IsDigit(last) && GroupsAt(s, last).Some?
    ensures Match(s, last) == GroupsAt(s, last)
  {
    assert s[0..] == s;
  }

  /** A search that finds nothing has passed over every position from `from` on. */
  lemma {:induction false} FindGroupsMissed(s: string, from: nat, last: char)
    requires from <= |s| && !IsDigit(last)
    ensures FindGroups(s, from, last).None? ==> forall j :: from <= j <= |s| ==> GroupsAt(s[j..], last).None?
    decreases |s| - from
  {
    if FindGroups(s, from, last).None? {
      assert GroupsAt(s[from..], last).None?;
      if from < |s| {
        FindGroupsMissed(s, from + 1, last);
      }
      assert forall j :: from < j <= |s| ==> GroupsAt(s[j..], last).None?;
    }
  }

  /** The position a search finds is the leftmost match from `from` on. */
  lemma {:induction false} FindGroupsLeftmost(s: string, from: nat, last: char)
    requires from <= |s| && !IsDigit(last)
    ensures var r := FindGroups(s, from, last);
            r.Some? ==> forall j :: from <= j < r.value ==> GroupsAt(s[j..], last).None?
    decreases |s| - from
  {
    if GroupsAt(s[from..], last).None? && from < |s| {
      assert FindGroups(s, from, last) == FindGroups(s, from + 1, last);
      FindGroupsLeftmost(s, from + 1, last);
    }
  }

  /** A search over positions none of which matches finds nothing. */
  lemma {:induction false} FindGroupsNone(s: string, from: nat, last: char)
    requires from <= |s| && !IsDigit(last)
    requires forall j :: from <= j <= |s| ==> GroupsAt(s[j..], last).None?
    ensures FindGroups(s, from, last).None?
    decreases |s| - from
  {
    if from < |s| {
      FindGroupsNone(s, from + 1, last);
    }
  }

  /** Every match needs three separators, the first two `:`, at increasing positions. */
  lemma MatchSeparators(s: string, last: char)
    requires !IsDigit(last) && GroupsAt(s, last).Some?
    ensures ThreeSeparators(s, last)
  {
    var a := RunLength(s);
    var s1 := s[a + 1..];
    var b := RunLength(s1);
    var s2 := s1[b + 1..];
    var c := RunLength(s2);
    var q, r := a + 1 + b, a + 1 + b + 1 + c;
    assert s[q] == s1[b];
    assert s[r] == s2[c];
    SeparatorsAt(s, last, a, q, r);
  }

  lemma SeparatorsAt(s: string, last: char, p: int, q: int, r: int)
    requires 0 <= p < q < r < |s| && s[p] == ':' && s[q] == ':' && s[r] == last
    ensures ThreeSeparators(s, last)
  {
  }

  predicate ThreeSeparators(s: string, last: char)
  {
    exists p, q, r :: 0 <= p < q < r < |s| && s[p] == ':' && s[q] == ':' && s[r] == last
  }

  lemma Separators(s: string, last: char)
    requires !IsDigit(last)
    ensures GroupsAt(s, last).Some? ==> ThreeSeparators(s, last)
  {
    if GroupsAt(s, last).Some? {
      MatchSeparators(s, last);
    }
  }

  /** Text with colons only at `x` and `y` matches nowhere as non-drop text. */
  lemma TwoColonsNoMatch(s: string, x: int, y: int)
    requires forall k :: 0 <= k < |s| && k != x && k != y ==> s[k] != ':'
    ensures Match(s, ':').None?
  {
    forall j | 0 <= j <= |s|
      ensures GroupsAt(s[j..], ':').None?
    {
      var t := s[j..];
      forall k | 0 <= k < |t| && k != x - j && k != y - j
        ensures t[k] != ':'
      {
        assert t[k] == s[j + k];
      }
      Separators(t, ':');
    }
    FindGroupsNone(s, 0, ':');
  }

  // ------------------------------------------------------ reading SMPTE text

  /** SMPTE text with its concatenations grouped from the right. */
  lemma SmpteTextJoin(h: int, m: int, sec: int, sep: char, f: int)
    ensures SmpteText(h, m, sec, sep, f)
            == Field(h, 2) + [':'] + (Field(m, 2) + [':'] + (Field(sec, 2) + [sep] + Field(f, 2)))
  {
  }

  /** SMPTE text starts and ends with a digit, holds a colon and is not an integer. */
  lemma SmpteTextNotInteger(h: int, m: int, sec: int, sep: char, f: int)
    requires h >= 0 && f >= 0
    ensures var t := SmpteText(h, m, sec, sep, f);
            Shaped(t) && ToInt(t).None?
  {
    var t := SmpteText(h, m, sec, sep, f);
    var w := Field(h, 2);
    assert t[|w|] == ':';
    assert t[0] == w[0];
    assert t[|t| - 1] == Field(f, 2)[|Field(f, 2)| - 1];
    NotInteger(t);
  }

  /** Text that starts and ends with a digit and holds a colon, as SMPTE text does. */
  predicate Shaped(t: string)
  {
    |t| > 0 && IsDigit(t[0]) && IsDigit(t[|t| - 1]) && ':' in t
  }

  /** Text that starts and ends with a digit and holds a colon is not an integer. */
  lemma NotInteger(t: string)
    requires Shaped(t)
    ensures ToInt(t).None?
  {
    NoSpaceAround(t);
    var i :| 0 <= i < |t| && t[i] == ':';
    assert !IsDigit(t[i]);
  }

  /** Unsigned text that is not an integer and matches the non-drop expression reads as its groups. */
  lemma ReadNonDrop(t: string, g: Groups, fps: real)
    requires fps > 0.0 && ToInt(t).None? && |t| > 0 && t[0] != '-' && Match(t, ':') == Some(g)
    ensures MpvTimecodeToFrame(t, fps) == NonDropValue(g, fps)
  {
  }

  lemma ReadNonDropFields(t: string, g: Groups, h: int, m: int, sec: int, f: int, fps: real)
    requires fps > 0.0 && ToInt(t).None? && |t| > 0 && t[0] != '-' && Match(t, ':') == Some(g)
    requires ToIntOr0(g.g1) == h && ToIntOr0(g.g2) == m && ToIntOr0(g.g3) == sec && ToIntOr0(g.g4) == f
    ensures MpvTimecodeToFrame(t, fps) == Scaled(h * 3600 + m * 60 + sec, fps) + f
  {
    ReadNonDrop(t, g, fps);
    NonDropValueOf(g, h, m, sec, f, fps);
  }

  lemma NonDropValueOf(g: Groups, h: int, m: int, sec: int, f: int, fps: real)
    requires ToIntOr0(g.g1) == h && ToIntOr0(g.g2) == m && ToIntOr0(g.g3) == sec && ToIntOr0(g.g4) == f
    ensures NonDropValue(g, fps) == Scaled(h * 3600 + m * 60 + sec, fps) + f
  {
  }

  /** The same for the drop-frame expression when the non-drop one does not match. */
  lemma ReadDrop(t: string, g: Groups, fps: real)
    requires fps > 0.0 && ToInt(t).None? && |t| > 0 && t[0] != '-'
    requires Match(t, ':').None? && Match(t, ';') == Some(g)
    ensures MpvTimecodeToFrame(t, fps) == DropValue(g, fps)
  {
  }

  lemma ReadDropFields(t: string, g: Groups, h: int, m: int, sec: int, f: int, fps: real)
    requires fps > 0.0 && ToInt(t).None? && |t| > 0 && t[0] != '-'
    requires Match(t, ':').None? && Match(t, ';') == Some(g)
    requires ToIntOr0(g.g1) == h && ToIntOr0(g.g2) == m && ToIntOr0(g.g3) == sec && ToIntOr0(g.g4) == f
    ensures MpvTimecodeToFrame(t, fps) == Scaled(h * 3600 + m * 60 + sec, fps) + f - DroppedLabels(h * 60 + m, fps)
  {
    ReadDrop(t, g, fps);
    DropValueOf(g, h, m, sec, f, fps);
  }

  lemma DropValueOf(g: Groups, h: int, m: int, sec: int, f: int, fps: real)
    requires ToIntOr0(g.g1) == h && ToIntOr0(g.g2) == m && ToIntOr0(g.g3) == sec && ToIntOr0(g.g4) == f
    ensures DropValue(g, fps) == Scaled(h * 3600 + m * 60 + sec, fps) + f - DroppedLabels(h * 60 + m, fps)
  {
    assert DropValue(g, fps) == DropFields(h, m, sec, f, fps);
  }

  /** The groups of SMPTE text with separator `sep`. */
  lemma SmpteGroupsOf(h: int, m: int, sec: int, sep: char, f: int)
    requires h >= 0 && m >= 0 && sec >= 0 && f >= 0 && !IsDigit(sep)
    ensures Match(SmpteText(h, m, sec, sep, f), sep) == Some(Groups(Field(h, 2), Field(m, 2), Field(sec, 2), Field(f, 2)))
  {
    SmpteTextJoin(h, m, sec, sep, f);
    GroupsOfJoin(Field(h, 2), Field(m, 2), Field(sec, 2), Field(f, 2), sep);
    MatchAtFront(SmpteText(h, m, sec, sep, f), sep);
  }

  lemma FieldsValue(h: int, m: int, sec: int, f: int)
    requires 0 <= h <= IntMax && 0 <= m <= IntMax && 0 <= sec <= IntMax && 0 <= f <= IntMax
    ensures var g := Groups(Field(h, 2), Field(m, 2), Field(sec, 2), Field(f, 2));
            ToIntOr0(g.g1) == h && ToIntOr0(g.g2) == m && ToIntOr0(g.g3) == sec && ToIntOr0(g.g4) == f
  {
    FieldToInt(h, 2);
    FieldToInt(m, 2);
    FieldToInt(sec, 2);
    FieldToInt(f, 2);
  }

  /** Non-drop SMPTE text reads back as its whole seconds at `fps` plus its frames. */
  lemma NonDropTextValue(h: int, m: int, sec: int, f: int, fps: real)
    requires 0 <= h <= IntMax && 0 <= m <= IntMax && 0 <= sec <= IntMax && 0 <= f <= IntMax
    requires fps > 0.0
    ensures MpvTimecodeToFrame(SmpteText(h, m, sec, ':', f), fps) == Scaled(h * 3600 + m * 60 + sec, fps) + f
  {
    var t := SmpteText(h, m, sec, ':', f);
    var g := Groups(Field(h, 2), Field(m, 2), Field(sec, 2), Field(f, 2));
    SmpteTextNotInteger(h, m, sec, ':', f);
    SmpteGroupsOf(h, m, sec, ':', f);
    FieldsValue(h, m, sec, f);
    ReadNonDropFields(t, g, h, m, sec, f, fps);
  }

  /** Drop-frame SMPTE text has colons only in its two first separators. */
  lemma DropTextColons(h: int, m: int, sec: int, f: int)
    requires h >= 0 && m >= 0 && sec >= 0 && f >= 0
    ensures var t := SmpteText(h, m, sec, ';', f);
            var x := |Field(h, 2)|;
            forall k :: 0 <= k < |t| && k != x && k != x + 1 + |Field(m, 2)| ==> t[k] != ':'
  {
    ColonsOfJoin(Field(h, 2), Field(m, 2), Field(sec, 2), Field(f, 2), ';');
  }

  /** Four runs of digits joined by two colons and another separator hold no other colon. */
  lemma ColonsOfJoin(a: string, b: string, c: string, d: string, sep: char)
    requires AllDigits(a) && AllDigits(b) && AllDigits(c) && AllDigits(d) && sep != ':'
    ensures var t := a + ":" + b + ":" + c + [sep] + d;
            forall k :: 0 <= k < |t| && k != |a| && k != |a| + 1 + |b| ==> t[k] != ':'
  {
    var t := a + ":" + b + ":" + c + [sep] + d;
    var y := |a| + 1 + |b|;
    var z := y + 1 + |c|;
    forall k | 0 <= k < |t| && k != |a| && k != y
      ensures t[k] != ':'
    {
      if k < |a| {
        assert t[k] == a[k];
      } else if k < y {
        assert t[k] == b[k - |a| - 1];
      } else if k < z {
        assert t[k] == c[k - y - 1];
      } else if k == z {
        assert t[k] == sep;
      } else {
        assert t[k] == d[k - z - 1];
      }
    }
  }

  /** Drop-frame SMPTE text reads back with the dropped labels taken off. */
  lemma DropTextValue(h: int, m: int, sec: int, f: int, fps: real)
    requires 0 <= h <= IntMax && 0 <= m <= IntMax && 0 <= sec <= IntMax && 0 <= f <= IntMax
    requires fps > 0.0
    ensures MpvTimecodeToFrame(SmpteText(h, m, sec, ';', f), fps)
            == Scaled(h * 3600 + m * 60 + sec, fps) + f - DroppedLabels(h * 60 + m, fps)
  {
    var t := SmpteText(h, m, sec, ';', f);
    var g := Groups(Field(h, 2), Field(m, 2), Field(sec, 2), Field(f, 2));
    SmpteTextNotInteger(h, m, sec, ';', f);
    DropTextColons(h, m, sec, f);
    TwoColonsNoMatch(t, |Field(h, 2)|, |Field(h, 2)| + 1 + |Field(m, 2)|);
    SmpteGroupsOf(h, m, sec, ';', f);
    FieldsValue(h, m, sec, f);
    ReadDropFields(t, g, h, m, sec, f, fps);
  }

  // ------------------------------------------------------------ round trips

  /** A frames-only time code reads back as the frame, negative frames included. */
  lemma FramesOnlyRoundTrip(frame: int, pattern: string, ownFormat: int, ownPattern: string, fps: real)
    requires fps > 0.0 && InInt32(frame)
    ensures MpvTimecodeToFrame(MpvFrameToTimecode(frame, 3, pattern, ownFormat, ownPattern, fps), fps) == frame
  {
    assert MpvFrameToTimecode(frame, 3, pattern, ownFormat, ownPattern, fps) == Number(frame);
    NumberToInt(frame);
  }

  /** The fields `frameToTimecode` computes for frame `frame` at a whole rate `n`. */
  lemma ExactParts(frame: int, n: int)
    requires n >= 1 && frame >= 0
    ensures var s := frame / n;
            var p := PartsOf(frame as real / n as real, n as real);
            p.hours == s / 3600 && p.minutes == (s % 3600) / 60 && p.seconds == s % 60
            && p.frameNumber == frame % n
  {
    var s := frame / n;
    WholeSecondsFields(frame as real / n as real, frame, n);
  }

  lemma WholeSecondsFields(ts: real, frame: int, n: int)
    requires n >= 1 && frame >= 0 && ts * n as real == frame as real
    ensures var s := frame / n;
            var p := PartsOf(ts, n as real);
            p.hours == s / 3600 && p.minutes == (s % 3600) / 60 && p.seconds == s % 60
            && p.frameNumber == frame % n
  {
    var s := frame / n;
    SecondsWindow(ts, frame, n);
    FrameField(ts, frame, n, s);
    ClockFields(ts, s, n as real, frame % n);
  }

  lemma SecondsWindow(ts: real, frame: int, n: int)
    requires n >= 1 && frame >= 0 && ts * n as real == frame as real
    ensures (frame / n) as real <= ts < (frame / n) as real + 1.0
  {
    assert ts == frame as real / n as real;
    WholeSeconds(frame, n);
  }

  /** The clock fields of a time `ts` within a second of the whole seconds `s`. */
  lemma ClockFields(ts: real, s: int, fps: real, frameNumber: int)
    requires s >= 0 && s as real <= ts < s as real + 1.0
    requires Trunc((ts - Trunc(ts) as real) * fps) == frameNumber
    ensures var p := PartsOf(ts, fps);
            p.hours == s / 3600 && p.minutes == (s % 3600) / 60 && p.seconds == s % 60
            && p.frameNumber == frameNumber
  {
    var h := s / 3600;
    var m := (s % 3600) / 60;
    HoursField(ts, s);
    MinutesField(ts, s, h);
    SecondsField(ts, s, h, m);
  }

  lemma SecondsField(ts: real, s: int, h: int, m: int)
    requires s >= 0 && s as real <= ts < s as real + 1.0 && h == s / 3600 && m == (s % 3600) / 60
    ensures Trunc(ts - (h * 3600) as real - (m * 60) as real) == s % 60
  {
    SecondsOfSplit(s, h, s % 3600, m);
    var x := ts - (h * 3600) as real - (m * 60) as real;
    assert (s % 60) as real <= x < (s % 60) as real + 1.0;
  }

  lemma FrameField(ts: real, frame: int, n: int, s: int)
    requires n >= 1 && frame >= 0 && ts * n as real == frame as real && s == frame / n
    requires s as real <= ts < s as real + 1.0
    ensures Trunc((ts - Trunc(ts) as real) * n as real) == frame % n
  {
    assert Trunc(ts) == s;
    var y := (ts - s as real) * n as real;
    assert y == ts * n as real - s as real * n as real;
    assert y == (frame - s * n) as real;
    assert frame - s * n == frame % n;
  }

  /** The text of a non-negative frame at a whole rate, in the non-drop format. */
  lemma NonDropTextOf(frame: int, n: int, pattern: string, ownFormat: int, ownPattern: string)
    requires n >= 1 && frame >= 0
    ensures var s := frame / n;
            MpvFrameToTimecode(frame, 0, pattern, ownFormat, ownPattern, n as real)
            == SmpteText(s / 3600, (s % 3600) / 60, s % 60, ':', frame % n)
  {
    ExactParts(frame, n);
  }

  /** At a whole frame rate the non-drop time code of every `int` frame reads back as that frame. */
  lemma NonDropRoundTrip(frame: int, n: int, pattern: string, ownFormat: int, ownPattern: string)
    requires n >= 1 && -IntMax <= frame <= IntMax
    ensures MpvTimecodeToFrame(MpvFrameToTimecode(frame, 0, pattern, ownFormat, ownPattern, n as real), n as real)
            == frame
  {
    if frame >= 0 {
      NonDropPositive(frame, n, pattern, ownFormat, ownPattern);
    } else {
      NonDropNegative(frame, n, pattern, ownFormat, ownPattern);
    }
  }

  lemma NonDropNegative(frame: int, n: int, pattern: string, ownFormat: int, ownPattern: string)
    requires n >= 1 && -IntMax <= frame < 0
    ensures MpvTimecodeToFrame(MpvFrameToTimecode(frame, 0, pattern, ownFormat, ownPattern, n as real), n as real)
            == frame
  {
    var x := -frame;
    NonDropPositive(x, n, pattern, ownFormat, ownPattern);
    NegativeRead(frame, x, 0, pattern, ownFormat, ownPattern, n as real);
  }

  /** The text of a negative frame is the text of its magnitude behind a minus sign. */
  lemma NegativeFormat(frame: int, x: int, format: int, pattern: string, ownFormat: int, ownPattern: string, fps: real)
    requires fps > 0.0 && frame < 0 && x == -frame
    ensures MpvFrameToTimecode(frame, format, pattern, ownFormat, ownPattern, fps)
            == "-" + MpvFrameToTimecode(x, format, pattern, ownFormat, ownPattern, fps)
  {
    assert Abs(frame) == x == Abs(x);
  }

  /** The non-drop text of a non-negative frame reads back as the frame and is SMPTE-shaped. */
  lemma NonDropPositive(x: int, n: int, pattern: string, ownFormat: int, ownPattern: string)
    requires n >= 1 && 0 <= x <= IntMax
    ensures MpvTimecodeToFrame(MpvFrameToTimecode(x, 0, pattern, ownFormat, ownPattern, n as real), n as real) == x
    ensures Shaped(MpvFrameToTimecode(x, 0, pattern, ownFormat, ownPattern, n as real))
  {
    var s := x / n;
    var u := SmpteText(s / 3600, (s % 3600) / 60, s % 60, ':', x % n);
    NonDropTextOf(x, n, pattern, ownFormat, ownPattern);
    SplitTextShape(x, n);
    SplitTextReads(x, n);
    assert MpvFrameToTimecode(x, 0, pattern, ownFormat, ownPattern, n as real) == u;
  }

  /** The plain split's text starts and ends with a digit and holds a colon. */
  lemma SplitTextShape(x: int, n: int)
    requires n >= 1 && x >= 0
    ensures var s := x / n;
            var u := SmpteText(s / 3600, (s % 3600) / 60, s % 60, ':', x % n);
            Shaped(u)
  {
    var s := x / n;
    DivBelow(x, n, x + 1);
    SmpteTextNotInteger(s / 3600, (s % 3600) / 60, s % 60, ':', x % n);
  }

  /** The plain split of `x` at `n` frames per second reads back as `x`. */
  lemma SplitTextReads(x: int, n: int)
    requires n >= 1 && 0 <= x <= IntMax
    ensures var s := x / n;
            MpvTimecodeToFrame(SmpteText(s / 3600, (s % 3600) / 60, s % 60, ':', x % n), n as real) == x
  {
    var s := x / n;
    DivBelow(x, n, x + 1);
    SplitValue(x, n);
    ReadClock(s / 3600, (s % 3600) / 60, s % 60, x % n, n as real, x);
  }

  /** The fields of the plain split of `x` add back up to `x`. */
  lemma SplitValue(x: int, n: int)
    requires n >= 1 && x >= 0
    ensures var s := x / n;
            Scaled((s / 3600) * 3600 + ((s % 3600) / 60) * 60 + s % 60, n as real) + x % n == x
  {
    var s := x / n;
    var k := (s / 3600) * 3600 + ((s % 3600) / 60) * 60 + s % 60;
    ClockOfSeconds(s);
    assert k == s;
    ScaledWhole(k, n);
    assert Scaled(k, n as real) == s * n;
    assert s * n + x % n == x;
  }

  /** Non-drop text of clock fields whose value at `fps` is `x`. */
  lemma ReadClock(h: int, m: int, sec: int, f: int, fps: real, x: int)
    requires 0 <= h <= IntMax && 0 <= m <= IntMax && 0 <= sec <= IntMax && 0 <= f <= IntMax && fps > 0.0
    requires Scaled(h * 3600 + m * 60 + sec, fps) + f == x
    ensures MpvTimecodeToFrame(SmpteText(h, m, sec, ':', f), fps) == x
  {
    NonDropTextValue(h, m, sec, f, fps);
  }

  lemma ScaledWhole(s: int, n: int)
    ensures Scaled(s, n as real) == s * n
  {
    assert s as real * n as real == (s * n) as real;
  }

  /** A negative frame whose magnitude's text is SMPTE-shaped reads back negated. */
  lemma NegativeRead(frame: int, x: int, format: int, pattern: string, ownFormat: int, ownPattern: string, fps: real)
    requires fps > 0.0 && frame < 0 && x == -frame
    requires MpvTimecodeToFrame(MpvFrameToTimecode(x, format, pattern, ownFormat, ownPattern, fps), fps) == x
    requires Shaped(MpvFrameToTimecode(x, format, pattern, ownFormat, ownPattern, fps))
    ensures MpvTimecodeToFrame(MpvFrameToTimecode(frame, format, pattern, ownFormat, ownPattern, fps), fps) == frame
  {
    NegativeFormat(frame, x, format, pattern, ownFormat, ownPattern, fps);
    NegativeText(MpvFrameToTimecode(x, format, pattern, ownFormat, ownPattern, fps), fps);
  }

  /** A minus sign in front of SMPTE text negates its value. */
  lemma NegativeText(t: string, fps: real)
    requires fps > 0.0 && Shaped(t)
    ensures MpvTimecodeToFrame("-" + t, fps) == -MpvTimecodeToFrame(t, fps)
  {
    var tc := "-" + t;
    assert tc[1..] == t;
    NotInteger(t);
    assert !IsSpace(tc[0]) && TrimStart(tc) == tc;
    assert tc[|tc| - 1] == t[|t| - 1];
    assert !IsSpace(tc[|tc| - 1]) && TrimEnd(tc) == tc;
    var i :| 0 <= i < |t| && t[i] == ':';
    assert !IsDigit(tc[1..][i]);
  }

  /**
   * At 30 frames per second the drop-frame text that `frameToTimecode`
   * writes carries the plain split of the frame, so reading it back takes
   * off two labels per minute not divisible by ten: the two are not
   * inverse.
   */
  lemma DropTextReadsBackShifted(frame: int, pattern: string, ownFormat: int, ownPattern: string)
    requires 0 <= frame <= IntMax
    ensures var minutes := (frame / 30) / 60;
            MpvTimecodeToFrame(MpvFrameToTimecode(frame, 1, pattern, ownFormat, ownPattern, 30.0), 30.0)
            == frame - 2 * (minutes - minutes / 10)
  {
    var s := frame / 30;
    var u := SmpteText(s / 3600, (s % 3600) / 60, s % 60, ';', frame % 30);
    DropTextOf(frame, 30, pattern, ownFormat, ownPattern);
    SplitDropReads(frame);
    assert MpvFrameToTimecode(frame, 1, pattern, ownFormat, ownPattern, 30.0) == u;
  }

  /** The drop-frame format writes the plain split of the frame. */
  lemma DropTextOf(frame: int, n: int, pattern: string, ownFormat: int, ownPattern: string)
    requires n >= 1 && frame >= 0
    ensures var s := frame / n;
            MpvFrameToTimecode(frame, 1, pattern, ownFormat, ownPattern, n as real)
            == SmpteText(s / 3600, (s % 3600) / 60, s % 60, ';', frame % n)
  {
    ExactParts(frame, n);
  }

  /** The plain split with the drop-frame separator reads back with the dropped labels taken off. */
  lemma SplitDropReads(x: int)
    requires 0 <= x <= IntMax
    ensures var s := x / 30;
            var minutes := s / 60;
            MpvTimecodeToFrame(SmpteText(s / 3600, (s % 3600) / 60, s % 60, ';', x % 30), 30.0)
            == x - 2 * (minutes - minutes / 10)
  {
    var s := x / 30;
    DivBelow(x, 30, x + 1);
    SplitDropValue(x);
    ReadDropClock(s / 3600, (s % 3600) / 60, s % 60, x % 30, 30.0, x - 2 * (s / 60 - (s / 60) / 10));
  }

  /** Drop-frame text of clock fields whose drop-corrected value at `fps` is `y`. */
  lemma ReadDropClock(h: int, m: int, sec: int, f: int, fps: real, y: int)
    requires 0 <= h <= IntMax && 0 <= m <= IntMax && 0 <= sec <= IntMax && 0 <= f <= IntMax && fps > 0.0
    requires Scaled(h * 3600 + m * 60 + sec, fps) + f - DroppedLabels(h * 60 + m, fps) == y
    ensures MpvTimecodeToFrame(SmpteText(h, m, sec, ';', f), fps) == y
  {
    DropTextValue(h, m, sec, f, fps);
  }

  /** The arithmetic of reading the plain split back with drop-frame correction at 30 frames per second. */
  lemma SplitDropValue(x: int)
    requires x >= 0
    ensures var s := x / 30;
            var h, m := s / 3600, (s % 3600) / 60;
            Scaled(h * 3600 + m * 60 + s % 60, 30.0) + x % 30 - DroppedLabels(h * 60 + m, 30.0)
            == x - 2 * (s / 60 - (s / 60) / 10)
  {
    var s := x / 30;
    ClockOfSeconds(s);
    ScaledWhole(s, 30);
    assert FuzzyEqual(30.0, 30.0);
    var tm := (s / 3600) * 60 + (s % 3600) / 60;
    assert tm == s / 60 by {
      QuotientOfParts(s, tm, s % 60, 60);
    }
  }
}

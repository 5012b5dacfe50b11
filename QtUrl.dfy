/**
 * `QUrl(text).toLocalFile()` for text that starts with "file://", the one
 * use the player makes of QUrl. QUrl parses in its tolerant mode: after the
 * scheme and "//" comes the authority, up to the first '/', '?' or '#';
 * then the path, up to the first '?' or '#'. The query and the fragment are
 * not part of a local file name. The path is fully percent-decoded, a host
 * is written in the "//host/path" form of a shared drive, and on Windows the
 * slash before a drive letter is removed.
 */
module QtUrl {
  const FileScheme: string := "file://"

  /** The characters that end the authority, and those that end the path. */
  const AuthorityEnd: set<char> := {'/', '?', '#'}
  const PathEnd: set<char> := {'?', '#'}

  /** The index of the first character of `s` that is in `stops`, or |s| when there is none. */
  function FirstOf(s: string, stops: set<char>): (i: nat)
    ensures i <= |s|
    ensures forall k :: 0 <= k < i ==> s[k] !in stops
    ensures i < |s| ==> s[i] in stops
  {
    if s == [] then 0 else if s[0] in stops then 0 else 1 + FirstOf(s[1..], stops)
  }

  function LowerChar(c: char): char
  {
    if 'A' <= c <= 'Z' then (c as int - 'A' as int + 'a' as int) as char else c
  }

  /** Host names are kept in lower case. */
  function Lower(s: string): (t: string)
    ensures |t| == |s|
    ensures forall k :: 0 <= k < |s| ==> t[k] == LowerChar(s[k])
  {
    if s == [] then [] else [LowerChar(s[0])] + Lower(s[1..])
  }

  predicate IsHex(c: char)
  {
    '0' <= c <= '9' || 'a' <= c <= 'f' || 'A' <= c <= 'F'
  }

  function HexValue(c: char): (v: nat)
    requires IsHex(c)
    ensures v < 16
  {
    if c <= '9' then c as int - '0' as int
    else if c <= 'F' then c as int - 'A' as int + 10
    else c as int - 'a' as int + 10
  }

  /**
   * Full percent-decoding: '%' and two hexadecimal digits are the character
   * of that code; any other '%' stays, as tolerant parsing keeps it.
   */
  function PercentDecode(s: string): (t: string)
    ensures |t| <= |s|
  {
    if s == [] then []
    else if s[0] == '%' && |s| >= 3 && IsHex(s[1]) && IsHex(s[2]) then
      [(HexValue(s[1]) * 16 + HexValue(s[2])) as char] + PercentDecode(s[3..])
    else [s[0]] + PercentDecode(s[1..])
  }

  /** The path of what follows the authority: up to the query or the fragment. */
  function PathPart(s: string): (p: string)
    ensures p <= s
    ensures forall k :: 0 <= k < |p| ==> p[k] !in PathEnd
  {
    s[..FirstOf(s, PathEnd)]
  }

  /**
   * The local file of a host and a decoded path: a host gives "//host"
   * before the path, and without one a path whose third character is ':'
   * loses its leading slash on Windows.
   */
  function Assemble(host: string, decoded: string, windows: bool): (path: string)
    ensures host != [] ==> path == "//" + host + (if decoded != [] && decoded[0] != '/' then "/" else "") + decoded
    ensures host == [] && !windows ==> path == decoded
  {
    if host != [] then "//" + host + (if decoded != [] && decoded[0] != '/' then "/" else "") + decoded
    else if windows && |decoded| > 2 && decoded[0] == '/' && decoded[2] == ':' then decoded[1..]
    else decoded
  }

  /** `toLocalFile` of "file://" followed by `rest`, on Windows when `windows`. */
  function ToLocalFile(rest: string, windows: bool): (path: string)
    ensures FirstOf(rest, AuthorityEnd) > 0 ==> |path| >= 2 && path[..2] == "//"
  {
    var a := FirstOf(rest, AuthorityEnd);
    Assemble(Lower(rest[..a]), PercentDecode(PathPart(rest[a..])), windows)
  }

  // ------------------------------------------------------- a reference encoder

  /** The characters a local path escapes to be written as a URL path. */
  predicate Reserved(c: char)
  {
    c == ' ' || c == '#' || c == '%' || c == '?'
  }

  function Escape(c: char): (e: string)
    ensures Reserved(c) ==> |e| == 3 && e[0] == '%' && IsHex(e[1]) && IsHex(e[2])
                            && (HexValue(e[1]) * 16 + HexValue(e[2])) as char == c
    ensures !Reserved(c) ==> e == [c]
  {
    if c == ' ' then "%20"
    else if c == '#' then "%23"
    else if c == '%' then "%25"
    else if c == '?' then "%3F"
    else [c]
  }

  /** A local path written as a URL path: the reserved characters escaped, the rest kept. */
  function PercentEncode(p: string): (s: string)
    ensures forall k :: 0 <= k < |s| ==> s[k] !in PathEnd
  {
    if p == [] then [] else Escape(p[0]) + PercentEncode(p[1..])
  }

  // ------------------------------------------------------------------ lemmas

  /** Decoding undoes the encoding of any path. */
  lemma {:induction false} DecodeEncode(p: string)
    ensures PercentDecode(PercentEncode(p)) == p
    decreases |p|
  {
    if p != [] {
      var e := Escape(p[0]);
      var r := PercentEncode(p[1..]);
      assert PercentEncode(p) == e + r;
      DecodeEncode(p[1..]);
      if Reserved(p[0]) {
        assert (e + r)[3..] == r;
      } else {
        assert (e + r)[1..] == r;
      }
    }
  }

  /** Encoding keeps the characters that are not reserved, and works piece by piece. */
  lemma {:induction false} EncodeConcat(a: string, b: string)
    ensures PercentEncode(a + b) == PercentEncode(a) + PercentEncode(b)
    decreases |a|
  {
    if a != [] {
      assert (a + b)[0] == a[0] && (a + b)[1..] == a[1..] + b;
      EncodeConcat(a[1..], b);
      calc {
        PercentEncode(a + b);
        Escape(a[0]) + PercentEncode(a[1..] + b);
        Escape(a[0]) + (PercentEncode(a[1..]) + PercentEncode(b));
        (Escape(a[0]) + PercentEncode(a[1..])) + PercentEncode(b);
      }
    } else {
      assert a + b == b;
    }
  }

  lemma {:induction false} EncodePlain(p: string)
    requires forall k :: 0 <= k < |p| ==> !Reserved(p[k])
    ensures PercentEncode(p) == p
    decreases |p|
  {
    if p != [] {
      assert !Reserved(p[0]);
      EncodePlain(p[1..]);
      assert PercentEncode(p) == Escape(p[0]) + PercentEncode(p[1..]) == [p[0]] + p[1..];
    }
  }

  /** A host already in lower case is kept. */
  lemma {:induction false} LowerKeeps(s: string)
    requires forall k :: 0 <= k < |s| ==> !('A' <= s[k] <= 'Z')
    ensures Lower(s) == s
    decreases |s|
  {
    if s != [] {
      LowerKeeps(s[1..]);
      assert Lower(s) == [s[0]] + s[1..];
    }
  }

  /** A string without a stop character is searched to its end. */
  lemma FirstOfNone(s: string, stops: set<char>)
    requires forall k :: 0 <= k < |s| ==> s[k] !in stops
    ensures FirstOf(s, stops) == |s|
  {
  }

  /** The search stops inside `s` or at the stop that begins `t`. */
  lemma FirstOfConcat(s: string, t: string, stops: set<char>)
    requires t != [] && t[0] in stops
    ensures FirstOf(s + t, stops) == FirstOf(s, stops)
  {
    assert forall k :: 0 <= k < |s| ==> (s + t)[k] == s[k];
    assert (s + t)[|s|] == t[0];
  }

  /** An encoded absolute path reads back as the path, less the slash before a Windows drive. */
  lemma LocalPathRoundTrip(p: string, windows: bool)
    requires |p| > 0 && p[0] == '/'
    ensures ToLocalFile(PercentEncode(p), windows) == if windows && |p| > 2 && p[2] == ':' then p[1..] else p
  {
    var e := PercentEncode(p);
    assert e == Escape(p[0]) + PercentEncode(p[1..]);
    assert FirstOf(e, AuthorityEnd) == 0;
    FirstOfNone(e, PathEnd);
    assert e[0..] == e && PathPart(e) == e;
    DecodeEncode(p);
  }

  /** A host before an encoded absolute path gives the shared-drive form "//host/path". */
  lemma SharedDrivePath(host: string, p: string, windows: bool)
    requires host != [] && forall k :: 0 <= k < |host| ==> host[k] !in AuthorityEnd
    requires |p| > 0 && p[0] == '/'
    ensures ToLocalFile(host + PercentEncode(p), windows) == "//" + Lower(host) + p
  {
    var e := PercentEncode(p);
    assert e == Escape(p[0]) + PercentEncode(p[1..]);
    FirstOfConcat(host, e, AuthorityEnd);
    FirstOfNone(host, AuthorityEnd);
    assert (host + e)[..|host|] == host;
    assert (host + e)[|host|..] == e;
    FirstOfNone(e, PathEnd);
    assert PathPart(e) == e;
    DecodeEncode(p);
  }

  /** The path part ends where a query or a fragment begins. */
  lemma PathPartBeforeTail(s: string, tail: string)
    requires forall k :: 0 <= k < |s| ==> s[k] !in PathEnd
    requires tail != [] && tail[0] in PathEnd
    ensures PathPart(s + tail) == s
  {
    FirstOfConcat(s, tail, PathEnd);
    FirstOfNone(s, PathEnd);
    assert (s + tail)[..|s|] == s;
  }

  /** A query or a fragment is not part of the local file. */
  lemma QueryAndFragmentDropped(rest: string, tail: string, windows: bool)
    requires forall k :: 0 <= k < |rest| ==> rest[k] !in PathEnd
    requires tail != [] && tail[0] in PathEnd
    ensures ToLocalFile(rest + tail, windows) == ToLocalFile(rest, windows)
  {
    FirstOfConcat(rest, tail, AuthorityEnd);
    var a := FirstOf(rest, AuthorityEnd);
    assert (rest + tail)[..a] == rest[..a];
    assert (rest + tail)[a..] == rest[a..] + tail;
    PathPartBeforeTail(rest[a..], tail);
    FirstOfNone(rest[a..], PathEnd);
    assert PathPart(rest[a..]) == rest[a..];
  }

  /** "file:///C:/v.mp4" is "C:/v.mp4" on Windows and "/C:/v.mp4" elsewhere. */
  lemma DriveLetterExample()
    ensures ToLocalFile("/C:/v.mp4", true) == "C:/v.mp4"
    ensures ToLocalFile("/C:/v.mp4", false) == "/C:/v.mp4"
  {
    EncodePlain("/C:/v.mp4");
    LocalPathRoundTrip("/C:/v.mp4", true);
    LocalPathRoundTrip("/C:/v.mp4", false);
  }
}

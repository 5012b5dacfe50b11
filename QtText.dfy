/**
 * The parts of Qt's QString that the player's time-code code uses:
 * `QString::number(int)`, `QString::arg(n, width, 10, '0')`,
 * `QString::toInt()` and `QString::replace(before, after)`.
 */
module QtText {
  import opened CppMath

  predicate IsDigit(c: char)
  {
    '0' <= c <= '9'
  }

  predicate AllDigits(s: string)
  {
    forall i :: 0 <= i < |s| ==> IsDigit(s[i])
  }

  function DigitChar(d: nat): (c: char)
    requires d < 10
    ensures IsDigit(c) && c as int - '0' as int == d
  {
    ('0' as int + d) as char
  }

  /** The value of a string of decimal digits, most significant first. */
  function DigitsValue(s: string): (v: nat)
    requires AllDigits(s)
  {
    if s == [] then 0
    else DigitsValue(s[..|s| - 1]) * 10 + (s[|s| - 1] as int - '0' as int)
  }

  /** The shortest decimal spelling of `n`. */
  function Decimal(n: nat): (s: string)
    ensures |s| >= 1 && AllDigits(s)
    ensures s[0] == '0' ==> n == 0
    ensures n < 10 ==> |s| == 1
    ensures 10 <= n < 100 ==> |s| == 2
    ensures 100 <= n < 1000 ==> |s| == 3
    ensures n >= 10 ==> |s| >= 2
  {
    if n < 10 then [DigitChar(n)] else Decimal(n / 10) + [DigitChar(n % 10)]
  }

  lemma {:induction false} DecimalValue(n: nat)
    ensures DigitsValue(Decimal(n)) == n
  {
    if n >= 10 {
      var s := Decimal(n);
      assert s[..|s| - 1] == Decimal(n / 10);
      DecimalValue(n / 10);
    }
  }

  /** Leading zeros do not change the value of a digit string. */
  lemma {:induction false} ZerosValue(k: nat, s: string)
    requires AllDigits(s)
    ensures AllDigits(Zeros(k) + s) && DigitsValue(Zeros(k) + s) == DigitsValue(s)
    decreases |s|
  {
    if s == [] {
      ZerosOnlyValue(k);
      assert Zeros(k) + s == Zeros(k);
    } else {
      var t := Zeros(k) + s;
      assert t[..|t| - 1] == Zeros(k) + s[..|s| - 1];
      ZerosValue(k, s[..|s| - 1]);
    }
  }

  lemma {:induction false} ZerosOnlyValue(k: nat)
    ensures AllDigits(Zeros(k)) && DigitsValue(Zeros(k)) == 0
  {
    if k > 0 {
      assert Zeros(k)[..k - 1] == Zeros(k - 1);
      ZerosOnlyValue(k - 1);
    }
  }

  function Zeros(k: nat): (s: string)
    ensures |s| == k && forall i :: 0 <= i < k ==> s[i] == '0'
  {
    if k == 0 then [] else Zeros(k - 1) + ['0']
  }

  /** `QString::number(n)`. */
  function Number(n: int): (s: string)
    ensures |s| >= 1
    ensures n >= 0 ==> AllDigits(s) && DigitsValue(s) == n
    ensures n < 0 ==> s[0] == '-' && AllDigits(s[1..]) && DigitsValue(s[1..]) == -n
  {
    DecimalValue(if n < 0 then -n else n);
    if n < 0 then "-" + Decimal(-n) else Decimal(n)
  }

  /**
   * `QString("%1").arg(n, width, 10, QChar('0'))`: the decimal spelling of `n`,
   * padded with zeros after any minus sign up to `width` characters.
   */
  function Field(n: int, width: nat): (s: string)
    ensures |s| >= 1 && |s| >= width
    ensures n >= 0 ==> |s| == (if |Decimal(n)| < width then width else |Decimal(n)|)
    ensures n >= 0 ==> AllDigits(s) && DigitsValue(s) == n
    ensures n < 0 ==> s[0] == '-'
  {
    if n < 0 then "-" + Pad(Decimal(-n), if width == 0 then 0 else width - 1)
    else
      DecimalValue(n);
      ZerosValue(if |Decimal(n)| < width then width - |Decimal(n)| else 0, Decimal(n));
      Pad(Decimal(n), width)
  }

  function Pad(digits: string, width: nat): (s: string)
  {
    if |digits| < width then Zeros(width - |digits|) + digits else digits
  }

  /** The characters `QChar::isSpace` holds of. */
  predicate IsSpace(c: char)
  {
    c == ' ' || ('\t' <= c <= '\r') || c == '\U{85}' || c == '\U{A0}' || c == '\U{1680}'
    || ('\U{2000}' <= c <= '\U{200A}') || c == '\U{2028}' || c == '\U{2029}'
    || c == '\U{202F}' || c == '\U{205F}' || c == '\U{3000}'
  }

  function TrimStart(s: string): (t: string)
    ensures |t| <= |s|
    ensures t != [] ==> !IsSpace(t[0])
    ensures s != [] && !IsSpace(s[0]) ==> t == s
  {
    if s != [] && IsSpace(s[0]) then TrimStart(s[1..]) else s
  }

  function TrimEnd(s: string): (t: string)
    ensures |t| <= |s|
    ensures t != [] ==> !IsSpace(t[|t| - 1])
    ensures s != [] && !IsSpace(s[|s| - 1]) ==> t == s
  {
    if s != [] && IsSpace(s[|s| - 1]) then TrimEnd(s[..|s| - 1]) else s
  }

  /**
   * `QString::toInt(&ok)` in base 10: surrounding white space is skipped, an
   * optional sign is followed by at least one digit, and the value must fit
   * in an `int`. `None` is the case where `ok` is false (and the value is 0).
   */
  function ToInt(s: string): (r: Option<int>)
    ensures r.Some? ==> InInt32(r.value)
  {
    var t := TrimEnd(TrimStart(s));
    var negative := |t| > 0 && t[0] == '-';
    var digits := if |t| > 0 && (t[0] == '-' || t[0] == '+') then t[1..] else t;
    if digits == [] || !AllDigits(digits) then None
    else
      var v: int := if negative then -(DigitsValue(digits) as int) else DigitsValue(digits);
      if InInt32(v) then Some(v) else None
  }

  /** `QString::toInt()` without the `ok` flag: 0 when the text is not a number. */
  function ToIntOr0(s: string): (v: int)
    ensures InInt32(v)
    ensures ToInt(s).Some? ==> v == ToInt(s).value
  {
    match ToInt(s)
    case Some(v) => v
    case None => 0
  }

  datatype Option<T> = None | Some(value: T)

  /** `QString::number` is read back by `QString::toInt` for every `int`. */
  lemma NumberToInt(n: int)
    requires InInt32(n)
    ensures ToInt(Number(n)) == Some(n)
  {
    var s := Number(n);
    if n < 0 {
      NegativeDigitsToInt(s);
    } else {
      DigitsToInt(s);
    }
  }

  /** A plain run of digits reads as its value when that fits in an `int`. */
  lemma DigitsToInt(s: string)
    requires |s| > 0 && AllDigits(s) && DigitsValue(s) <= IntMax
    ensures ToInt(s) == Some(DigitsValue(s)) && ToIntOr0(s) == DigitsValue(s)
  {
    NoSpaceAround(s);
  }

  /** A minus sign before a run of digits reads as the negated value. */
  lemma NegativeDigitsToInt(s: string)
    requires |s| > 1 && s[0] == '-' && AllDigits(s[1..]) && -(DigitsValue(s[1..]) as int) >= IntMin
    ensures ToInt(s) == Some(-(DigitsValue(s[1..]) as int))
  {
    assert !IsSpace(s[0]);
    assert IsDigit(s[1..][|s| - 2]);
    assert !IsSpace(s[|s| - 1]);
  }

  /** Text that starts and ends with a digit has nothing to trim. */
  lemma NoSpaceAround(s: string)
    requires |s| > 0 && IsDigit(s[0]) && IsDigit(s[|s| - 1])
    ensures TrimStart(s) == s && TrimEnd(s) == s
  {
    assert !IsSpace(s[0]);
    assert !IsSpace(s[|s| - 1]);
  }

  /**
   * A text is a canonical non-negative `int` (it reads back as a number whose
   * spelling is the text itself) exactly when it is the decimal spelling of
   * some value in `[0, INT_MAX]`.
   */
  lemma CanonicalDecimal(s: string)
    ensures (ToIntOr0(s) >= 0 && s == Number(ToIntOr0(s)))
        <==> (exists n :: 0 <= n <= IntMax && s == Decimal(n))
  {
    if exists n :: 0 <= n <= IntMax && s == Decimal(n) {
      var n :| 0 <= n <= IntMax && s == Decimal(n);
      assert Number(n) == s;
      NumberToInt(n);
      assert ToIntOr0(s) == n;
    }
    var v := ToIntOr0(s);
    if v >= 0 && s == Number(v) {
      assert InInt32(v);
      assert Number(v) == Decimal(v);
      assert 0 <= v <= IntMax && s == Decimal(v);
    }
  }

  /** `QString::replace(before, after)`: every occurrence, left to right, without overlap. */
  function ReplaceAll(s: string, before: string, after: string): (r: string)
    requires |before| > 0
    decreases |s|
  {
    if |s| < |before| then s
    else if s[..|before|] == before then after + ReplaceAll(s[|before|..], before, after)
    else [s[0]] + ReplaceAll(s[1..], before, after)
  }

  /** A replacement does not look inside a prefix that cannot start an occurrence. */
  lemma {:induction false} ReplaceAllSkips(a: string, b: string, before: string, after: string)
    requires |before| > 0
    requires forall i :: 0 <= i < |a| ==> a[i] != before[0]
    ensures ReplaceAll(a + b, before, after) == a + ReplaceAll(b, before, after)
    decreases |a|
  {
    if a != [] {
      var s := a + b;
      if |s| < |before| {
      } else {
        assert s[..|before|][0] == a[0];
        assert s[..|before|] != before;
        assert ReplaceAll(s, before, after) == [a[0]] + ReplaceAll(s[1..], before, after);
        assert s[1..] == a[1..] + b;
        ReplaceAllSkips(a[1..], b, before, after);
        assert [a[0]] + (a[1..] + ReplaceAll(b, before, after)) == a + ReplaceAll(b, before, after);
      }
    } else {
      assert a + b == b;
    }
  }

  /** Text that lacks the last character of `before` holds no occurrence of it. */
  lemma {:induction false} ReplaceAllAbsent(s: string, before: string, after: string)
    requires |before| > 0 && before[|before| - 1] !in s
    ensures ReplaceAll(s, before, after) == s
    decreases |s|
  {
    if |s| >= |before| {
      assert s[..|before|][|before| - 1] == s[|before| - 1];
      assert s[..|before|] != before;
      assert before[|before| - 1] !in s[1..];
      ReplaceAllAbsent(s[1..], before, after);
      assert [s[0]] + s[1..] == s;
    }
  }

  /** An occurrence at the front is replaced and the scan goes on after it. */
  lemma ReplaceAllFront(rest: string, before: string, after: string)
    requires |before| > 0
    ensures ReplaceAll(before + rest, before, after) == after + ReplaceAll(rest, before, after)
  {
    var s := before + rest;
    assert s[..|before|] == before;
    assert s[|before|..] == rest;
  }
}

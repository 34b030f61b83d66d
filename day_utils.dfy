/**
 * The date helpers of the Date exercise: the Korean weekday name of a
 * `Date.getDay()` value, left padding with zeros as `String.prototype.padStart`
 * does it (section 21.1.3.14 of ECMAScript 2017), and the number of
 * whole days between two timestamps given in milliseconds.
 */
module DayUtils {
  import opened Outcomes

  // ---------------------------------------------------------------------------
  // Weekday names
  // ---------------------------------------------------------------------------

  /** The weekday names, indexed by the value `Date.getDay()` returns (0 = Sunday). */
  const KoreanDayNames: seq<string> :=
    ["일요일", "월요일", "화요일", "수요일", "목요일", "금요일", "토요일"]

  /**
   * changeDayToKoreanDay: a `switch` over the seven day numbers; every other
   * value falls through to `default` and the arrow function returns `undefined`.
   */
  function ChangeDayToKoreanDay(num: int): (r: Option<string>)
    ensures r.Some? <==> 0 <= num < 7
    ensures r.Some? ==> r.value == KoreanDayNames[num]
  {
    match num
    case 0 => Some("일요일")
    case 1 => Some("월요일")
    case 2 => Some("화요일")
    case 3 => Some("수요일")
    case 4 => Some("목요일")
    case 5 => Some("금요일")
    case 6 => Some("토요일")
    case _ => None
  }

  /** Different day numbers give different names. */
  lemma KoreanDayNamesDistinct(i: int, j: int)
    requires 0 <= i < 7 && 0 <= j < 7 && i != j
    ensures ChangeDayToKoreanDay(i) != ChangeDayToKoreanDay(j)
  {
  }

  // ---------------------------------------------------------------------------
  // String(v) for the values lpadZero is given
  // ---------------------------------------------------------------------------

  /** The JavaScript values lpadZero is applied to: integral numbers and strings. */
  datatype JsValue = JsNumber(n: int) | JsString(s: string)

  predicate IsDigit(c: char) { '0' <= c <= '9' }

  predicate AllDigits(s: string) { forall i :: 0 <= i < |s| ==> IsDigit(s[i]) }

  function DigitChar(d: nat): (c: char)
    requires d < 10
    ensures IsDigit(c)
  {
    "0123456789"[d]
  }

  function DigitValue(c: char): (d: nat)
    requires IsDigit(c)
    ensures d < 10 && DigitChar(d) == c
  {
    c as int - '0' as int
  }

  /** Decimal digits of a natural number, most significant first, no leading zero. */
  function NatToDigits(n: nat): (r: string)
    ensures 1 <= |r| && AllDigits(r)
    ensures r[0] == '0' ==> n == 0
  {
    if n < 10 then [DigitChar(n)] else NatToDigits(n / 10) + [DigitChar(n % 10)]
  }

  /** The value of a string of decimal digits (the empty string counts as 0). */
  function ParseDigits(s: string): nat
    requires AllDigits(s)
  {
    if s == [] then 0 else ParseDigits(s[..|s| - 1]) * 10 + DigitValue(s[|s| - 1])
  }

  /** `String(n)` for an integral number: an optional minus sign and the digits. */
  function NumberToString(n: int): (r: string)
    ensures 1 <= |r|
    ensures n >= 0 ==> AllDigits(r)
    ensures n < 0 ==> r[0] == '-' && AllDigits(r[1..])
  {
    if n >= 0 then NatToDigits(n) else "-" + NatToDigits(-n)
  }

  /** `String(v)`: numbers are printed in decimal, strings are returned as they are. */
  function ToJsString(v: JsValue): (r: string)
    ensures v.JsString? ==> r == v.s
    ensures v.JsNumber? ==> 1 <= |r| && (v.n >= 0 <==> AllDigits(r))
  {
    match v
    case JsNumber(n) => NumberToString(n)
    case JsString(s) => s
  }

  lemma {:induction false} ParseNatToDigits(n: nat)
    ensures ParseDigits(NatToDigits(n)) == n
  {
    if n >= 10 {
      var r := NatToDigits(n);
      assert r[..|r| - 1] == NatToDigits(n / 10);
      ParseNatToDigits(n / 10);
    }
  }

  /** Reading back what `String(n)` printed gives `n` again. */
  lemma NumberToStringRoundTrip(n: int)
    ensures var r := NumberToString(n);
            if n >= 0 then ParseDigits(r) == n else r[0] == '-' && ParseDigits(r[1..]) == -n
  {
    if n >= 0 {
      ParseNatToDigits(n);
    } else {
      assert NumberToString(n)[1..] == NatToDigits(-n);
      ParseNatToDigits(-n);
    }
  }

  // ---------------------------------------------------------------------------
  // lpadZero
  // ---------------------------------------------------------------------------

  function Max(a: int, b: int): int { if a >= b then a else b }

  /**
   * `s.padStart(maxLength, '0')`: when maxLength is no longer than s the string
   * is returned unchanged, otherwise zeros are put in front until it is
   * maxLength long.
   */
  function PadStart(s: string, maxLength: int): (r: string)
    ensures |r| == Max(maxLength, |s|)
    ensures r[|r| - |s|..] == s
    ensures forall i :: 0 <= i < |r| - |s| ==> r[i] == '0'
  {
    if maxLength <= |s| then s
    else
      var z := Zeros(maxLength - |s|);
      assert (z + s)[|z|..] == s;
      z + s
  }

  /** lpadZero(val, length) = String(val).padStart(length, '0'). */
  function LpadZero(val: JsValue, length: int): (r: string)
    ensures r == ToJsString(val) <==> length <= |ToJsString(val)|
  {
    PadStart(ToJsString(val), length)
  }

  /** The padded string is max(length, |String(val)|) long, ends with String(val) and is zeros before it. */
  lemma LpadZeroShape(val: JsValue, length: int)
    ensures var s, r := ToJsString(val), LpadZero(val, length);
            && |r| == Max(length, |s|)
            && r[|r| - |s|..] == s
            && forall i :: 0 <= i < |r| - |s| ==> r[i] == '0'
  {
  }

  /** A string already as long as the target is left alone. */
  lemma LpadZeroIdentity(val: JsValue, length: int)
    requires |ToJsString(val)| >= length
    ensures LpadZero(val, length) == ToJsString(val)
  {
  }

  /** Padding the padded string again changes nothing. */
  lemma LpadZeroIdempotent(val: JsValue, length: int)
    ensures LpadZero(JsString(LpadZero(val, length)), length) == LpadZero(val, length)
  {
  }

  function Zeros(k: nat): (r: string)
    ensures |r| == k && AllDigits(r)
    ensures forall i :: 0 <= i < k ==> r[i] == '0'
  {
    seq(k, _ => '0')
  }

  lemma {:induction false} ParseZeros(k: nat)
    ensures ParseDigits(Zeros(k)) == 0
  {
    if k > 0 {
      assert Zeros(k)[..k - 1] == Zeros(k - 1);
      ParseZeros(k - 1);
    }
  }

  lemma {:induction false} ParseLeadingZeros(k: nat, s: string)
    requires AllDigits(s)
    ensures AllDigits(Zeros(k) + s) && ParseDigits(Zeros(k) + s) == ParseDigits(s)
    decreases |s|
  {
    if s == [] {
      assert Zeros(k) + s == Zeros(k);
      ParseZeros(k);
    } else {
      var t := Zeros(k) + s;
      assert t[..|t| - 1] == Zeros(k) + s[..|s| - 1];
      ParseLeadingZeros(k, s[..|s| - 1]);
    }
  }

  /**
   * A natural number padded to at least its own width still reads back as the
   * same number: the month, day, hour and minute fields the exercise formats.
   */
  lemma LpadZeroFixedWidth(v: nat, length: int)
    requires |NatToDigits(v)| <= length
    ensures |LpadZero(JsNumber(v), length)| == length
    ensures AllDigits(LpadZero(JsNumber(v), length))
    ensures ParseDigits(LpadZero(JsNumber(v), length)) == v
  {
    var s := NatToDigits(v);
    assert LpadZero(JsNumber(v), length) == Zeros(length - |s|) + s;
    ParseLeadingZeros(length - |s|, s);
    ParseNatToDigits(v);
  }

  /** Any value below 100 fills a two-character field exactly. */
  lemma TwoDigitField(v: nat)
    requires v < 100
    ensures |LpadZero(JsNumber(v), 2)| == 2 && ParseDigits(LpadZero(JsNumber(v), 2)) == v
  {
    assert |NatToDigits(v)| <= 2;
    LpadZeroFixedWidth(v, 2);
  }

  // ---------------------------------------------------------------------------
  // Whole days between two timestamps
  // ---------------------------------------------------------------------------

  /** 1000 * 60 * 60 * 24 milliseconds. */
  const MsPerDay: int := 86400000

  function Abs(x: int): (r: nat)
    ensures r == x || r == -x
  {
    if x < 0 then -x else x
  }

  /** Math.floor(Math.abs(a - b) / 86400000) for timestamps a and b in milliseconds. */
  function DayDifference(a: int, b: int): (r: nat)
    ensures r * MsPerDay <= Abs(a - b) < (r + 1) * MsPerDay
  {
    Abs(a - b) / MsPerDay
  }

  /** The order of the two dates does not matter. */
  lemma DayDifferenceSymmetric(a: int, b: int)
    ensures DayDifference(a, b) == DayDifference(b, a)
  {
    assert Abs(a - b) == Abs(b - a);
  }

  /** Two timestamps less than a day apart differ by zero whole days. */
  lemma DayDifferenceWithinADay(a: int, b: int)
    requires Abs(a - b) < MsPerDay
    ensures DayDifference(a, b) == 0
  {
  }
}

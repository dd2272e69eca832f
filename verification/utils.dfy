/** Formatting and threshold helpers of the user interface: `formatTime`,
    `getAgeGroup` and `getDifficultyColor`. */
module Utils {
  import opened Common

  function DigitChar(d: nat): (c: char)
    requires d < 10
    ensures '0' <= c <= '9' && c as int - '0' as int == d
  {
    (d + '0' as int) as char
  }

  predicate IsDigit(c: char) { '0' <= c <= '9' }

  function DigitValue(c: char): nat
    requires IsDigit(c)
  {
    c as int - '0' as int
  }

  /** Decimal text of a natural number, as `Number.prototype.toString` gives it. */
  function NatToString(n: nat): (s: string)
    ensures |s| >= 1 && forall i :: 0 <= i < |s| ==> IsDigit(s[i])
    decreases n
  {
    if n < 10 then [DigitChar(n)] else NatToString(n / 10) + [DigitChar(n % 10)]
  }

  /** `Number.prototype.toString` on an integer. */
  function IntToString(n: int): (r: string)
    ensures |r| >= 1
    ensures r[0] == '-' <==> n < 0
    ensures forall i :: 0 < i < |r| ==> IsDigit(r[i])
  {
    if n < 0 then "-" + NatToString(-n) else NatToString(n)
  }

  /** The value of a string of decimal digits. */
  function DecimalValue(s: string): nat
    requires forall i :: 0 <= i < |s| ==> IsDigit(s[i])
  {
    if s == [] then 0 else 10 * DecimalValue(s[..|s| - 1]) + DigitValue(s[|s| - 1])
  }

  lemma {:induction false} DecimalValueOfNatToString(n: nat)
    ensures DecimalValue(NatToString(n)) == n
    decreases n
  {
    if n >= 10 {
      var s := NatToString(n);
      assert s[..|s| - 1] == NatToString(n / 10);
      DecimalValueOfNatToString(n / 10);
    }
  }

  /** `String.prototype.padStart(2, '0')`. */
  function PadStart2(s: string): (r: string)
    ensures |s| >= 2 ==> r == s
    ensures |s| < 2 ==> |r| == 2 && r[2 - |s|..] == s && forall i :: 0 <= i < 2 - |s| ==> r[i] == '0'
  {
    if |s| >= 2 then s else seq(2 - |s|, _ => '0') + s
  }

  /** JavaScript `seconds % 60`: the remainder takes the sign of `seconds`. */
  function JsRem60(seconds: int): (r: int)
    ensures seconds >= 0 ==> 0 <= r < 60
    ensures seconds < 0 ==> -60 < r <= 0
    ensures (seconds - r) % 60 == 0
  {
    if seconds >= 0 then seconds % 60 else -((-seconds) % 60)
  }

  /** `formatTime`: minutes from `Math.floor(seconds / 60)`, then a colon,
      then `seconds % 60` padded to two characters. */
  function FormatTime(seconds: int): (r: string)
    ensures seconds >= 0 ==> |r| >= 4 && r[|r| - 3] == ':' && r[..|r| - 3] == NatToString(seconds / 60)
    ensures seconds >= 0 ==> IsDigit(r[|r| - 2]) && IsDigit(r[|r| - 1])
    ensures seconds < 0 ==> |r| >= 1 && r[0] == '-'
  {
    var m := IntToString(seconds / 60);
    if seconds >= 0 then
      TwoDigits(seconds % 60);
      var r := m + ":" + PadStart2(IntToString(JsRem60(seconds)));
      assert r[..|r| - 3] == m;
      r
    else
      m + ":" + PadStart2(IntToString(JsRem60(seconds)))
  }

  /** A value below sixty pads to exactly its two decimal digits. */
  lemma TwoDigits(secs: nat)
    requires secs < 60
    ensures PadStart2(NatToString(secs)) == [DigitChar(secs / 10), DigitChar(secs % 10)]
  {
    if secs < 10 {
      assert NatToString(secs) == [DigitChar(secs)];
      assert secs / 10 == 0 && secs % 10 == secs;
    } else {
      assert NatToString(secs / 10) == [DigitChar(secs / 10)];
      assert NatToString(secs) == [DigitChar(secs / 10), DigitChar(secs % 10)];
    }
  }

  /** For a non-negative input, `formatTime` writes the minutes in decimal,
      a colon, and the seconds as two digits whose value is `seconds % 60`. */
  lemma FormatTimeFields(seconds: nat)
    ensures var r := FormatTime(seconds);
      |r| >= 4 && r[|r| - 3] == ':' && r[..|r| - 3] == NatToString(seconds / 60)
      && r[|r| - 2] == DigitChar(seconds % 60 / 10)
      && r[|r| - 1] == DigitChar(seconds % 60 % 10)
  {
    TwoDigits(seconds % 60);
    var r := FormatTime(seconds);
    var m := NatToString(seconds / 60);
    assert r == m + ":" + [DigitChar(seconds % 60 / 10), DigitChar(seconds % 60 % 10)];
    assert r[..|r| - 3] == m;
  }

  /** Reads back `m:ss` text: the inverse of `FormatTime` on non-negative input. */
  function ParseTime(t: string): Option<int>
  {
    if |t| >= 4 && t[|t| - 3] == ':'
       && (forall i :: 0 <= i < |t| - 3 ==> IsDigit(t[i]))
       && IsDigit(t[|t| - 2]) && IsDigit(t[|t| - 1])
    then Some(60 * DecimalValue(t[..|t| - 3]) + 10 * DigitValue(t[|t| - 2]) + DigitValue(t[|t| - 1]))
    else None
  }

  /** Minutes times sixty plus the two-digit seconds field gives back the input. */
  lemma FormatTimeRoundTrip(seconds: nat)
    ensures ParseTime(FormatTime(seconds)) == Some(seconds)
  {
    FormatTimeFields(seconds);
    var r := FormatTime(seconds);
    var q, rem := seconds / 60, seconds % 60;
    DecimalValueOfNatToString(q);
    assert DecimalValue(r[..|r| - 3]) == q;
    assert DigitValue(r[|r| - 2]) == rem / 10;
    assert DigitValue(r[|r| - 1]) == rem % 10;
    assert 10 * (rem / 10) + rem % 10 == rem;
    assert 60 * q + rem == seconds;
  }

  /** Below ten seconds past the minute, the seconds field is zero-padded. */
  lemma FormatTimeZeroPad(seconds: nat)
    requires seconds % 60 < 10
    ensures var r := FormatTime(seconds); r[|r| - 2] == '0' && r[|r| - 1] == DigitChar(seconds % 60)
  {
    FormatTimeFields(seconds);
  }

  datatype AgeGroup = Child | Teen | Adult

  function AgeRank(g: AgeGroup): nat
  {
    match g
    case Child => 0
    case Teen => 1
    case Adult => 2
  }

  /** `getAgeGroup`: twelve and under are children, thirteen to seventeen teens. */
  function GetAgeGroup(age: int): (g: AgeGroup)
    ensures g == Child <==> age <= 12
    ensures g == Teen <==> 13 <= age <= 17
    ensures g == Adult <==> 18 <= age
  {
    if age <= 12 then Child else if age <= 17 then Teen else Adult
  }

  /** An older user is never put in a younger group. */
  lemma {:induction false} AgeGroupMonotone(a: int, b: int)
    requires a <= b
    ensures AgeRank(GetAgeGroup(a)) <= AgeRank(GetAgeGroup(b))
  {
  }

  /** `getDifficultyColor`: four colour bands over the difficulty scale. */
  function GetDifficultyColor(difficulty: int): (c: string)
    ensures c == "text-green-600" <==> difficulty <= 2
    ensures c == "text-yellow-600" <==> 3 <= difficulty <= 4
    ensures c == "text-orange-600" <==> 5 <= difficulty <= 6
    ensures c == "text-red-600" <==> 7 <= difficulty
  {
    if difficulty <= 2 then "text-green-600"
    else if difficulty <= 4 then "text-yellow-600"
    else if difficulty <= 6 then "text-orange-600"
    else "text-red-600"
  }
}

/**
 * The log-rotation size setting: a decimal count of bytes, optionally
 * followed by a KB, MB or GB unit in any letter case (`'10MB'`).
 */
module Sizes {
  import opened Wrappers
  import opened Text

  /**
   * The digits Python's `int()` accepts in base 10: ASCII digits, where a
   * single underscore may separate two digits.
   */
  predicate DigitGroups(s: string) {
    s != [] && IsDigit(s[0]) && IsDigit(s[|s| - 1]) &&
    (forall i :: 0 <= i < |s| ==> IsDigit(s[i]) || s[i] == '_') &&
    (forall i :: 0 <= i < |s| - 1 && s[i] == '_' ==> s[i + 1] != '_')
  }

  /**
   * `int(s)`: surrounding whitespace is ignored, one leading sign is allowed;
   * `None` stands for the `ValueError` raised on anything else.
   */
  function ParseInt(s: string): (r: Option<int>)
    ensures r.Some? ==> Trim(s) != []
    ensures AllDigits(Trim(s)) ==> r == Some(DigitsValue(Trim(s)))
  {
    var t := Trim(s);
    var signed := t != [] && (t[0] == '+' || t[0] == '-');
    var body := if signed then t[1..] else t;
    if !DigitGroups(body) then None
    else
      var n: int := GroupsValue(body);
      PlainDigitGroups(t);
      Some(if signed && t[0] == '-' then -n else n)
  }

  /** The value of digit groups: the digits with the underscores dropped. */
  function GroupsValue(s: string): nat
    requires DigitGroups(s)
  {
    WithoutUnderscores(s);
    DigitsValue(Without(s, '_'))
  }

  lemma WithoutUnderscores(s: string)
    requires forall i :: 0 <= i < |s| ==> IsDigit(s[i]) || s[i] == '_'
    ensures forall i :: 0 <= i < |Without(s, '_')| ==> IsDigit(Without(s, '_')[i])
  {
    if s != [] {
      WithoutUnderscores(s[1..]);
    }
  }

  /** Digits without underscores are digit groups worth their plain value. */
  lemma PlainDigitGroups(t: string)
    ensures AllDigits(t) ==> DigitGroups(t) && GroupsValue(t) == DigitsValue(t)
  {
    if AllDigits(t) {
      WithoutAbsent(t, '_');
    }
  }

  lemma WithoutAbsent(s: string, c: char)
    requires forall i :: 0 <= i < |s| ==> s[i] != c
    ensures Without(s, c) == s
  {
  }

  const KB: int := 1024
  const MB: int := 1024 * 1024
  const GB: int := 1024 * 1024 * 1024

  /** `_parse_size`: the size in bytes, or `None` where `int()` raises. */
  function ParseSize(s: string): (r: Option<int>)
  {
    var u := Upper(s);
    var n := |u|;
    if EndsWith(u, "KB") then Scale(ParseInt(u[..n - 2]), KB)
    else if EndsWith(u, "MB") then Scale(ParseInt(u[..n - 2]), MB)
    else if EndsWith(u, "GB") then Scale(ParseInt(u[..n - 2]), GB)
    else ParseInt(u)
  }

  function Scale(o: Option<int>, unit: int): Option<int> {
    match o
    case Some(x) => Some(x * unit)
    case None => None
  }

  /** The unit suffix is recognised in any letter case. */
  lemma ParseSizeIgnoresCase(s: string)
    ensures ParseSize(s) == ParseSize(Upper(s))
  {
    UpperIdempotent(s);
  }

  /** A plain number of bytes reads as itself. */
  lemma {:induction false} ParsePlain(n: nat)
    ensures ParseSize(NatToString(n)) == Some(n)
  {
    var d := NatToString(n);
    assert forall i :: 0 <= i < |d| ==> IsDigit(d[i]);
    NoLettersUpper(d);
    assert IsDigit(d[|d| - 1]);
    assert !EndsWith(d, "KB") && !EndsWith(d, "MB") && !EndsWith(d, "GB");
    ParseIntDigits(d);
  }

  /** A number followed by a two-letter unit reads as the number scaled by that unit, in any letter case. */
  lemma ParseWithUnit(n: nat, unit: string)
    requires |unit| == 2 && Upper(unit) in ["KB", "MB", "GB"]
    ensures ParseSize(NatToString(n) + unit) ==
      Some(n * (if Upper(unit) == "KB" then KB else if Upper(unit) == "MB" then MB else GB))
  {
    var d := NatToString(n);
    NoLettersUpper(d);
    assert Upper(d + unit) == d + Upper(unit);
    ScaledSize(d + unit, d, Upper(unit));
  }

  /** A text that upper-cases to digits and a unit reads as the digits' value scaled by the unit. */
  lemma ScaledSize(s: string, d: string, u: string)
    requires AllDigits(d) && u in ["KB", "MB", "GB"] && Upper(s) == d + u
    ensures ParseSize(s) == Some(DigitsValue(d) * (if u == "KB" then KB else if u == "MB" then MB else GB))
  {
    var t := Upper(s);
    assert t[..|t| - 2] == d;
    assert t[|t| - 2..] == u;
    ParseIntDigits(d);
  }

  /** A string of digits reads as its decimal value. */
  lemma ParseIntDigits(d: string)
    requires AllDigits(d)
    ensures ParseInt(d) == Some(DigitsValue(d))
  {
    TrimOfTrimmed(d);
  }

  /** Upper-casing leaves a string of digits as it is. */
  lemma NoLettersUpper(d: string)
    requires forall i :: 0 <= i < |d| ==> !('a' <= d[i] <= 'z')
    ensures Upper(d) == d
  {
    assert forall i :: 0 <= i < |d| ==> Upper(d)[i] == d[i];
  }

  /** A count of bytes written with a bare `B` unit is rejected. */
  lemma BareByteUnitRejected(d: string)
    requires AllDigits(d)
    ensures ParseSize(d + "B") == None
  {
    var s := d + "B";
    NoLettersUpper(s);
    assert s[|s| - 2] == d[|d| - 1];
    assert !EndsWith(s, "KB") && !EndsWith(s, "MB") && !EndsWith(s, "GB");
    assert ParseSize(s) == ParseInt(s);
    TrailingLetterRejected(d);
  }

  lemma TrailingLetterRejected(d: string)
    requires AllDigits(d)
    ensures ParseInt(d + "B") == None
  {
    var s := d + "B";
    assert s[0] == d[0] && s[|s| - 1] == 'B';
    assert !IsSpace(s[0]) && !IsSpace(s[|s| - 1]);
    TrimOfTrimmed(s);
  }

  /** Digit groups separated by single underscores are read as one number. */
  lemma {:induction false} ParseIntGroups(t: string)
    requires Trim(t) == t && DigitGroups(t)
    ensures ParseInt(t) == Some(GroupsValue(t))
  {
    assert !(t[0] == '+' || t[0] == '-');
  }

  /** `int('1_000')` is a thousand. */
  lemma UnderscoreGrouping()
    ensures ParseInt("1_000") == Some(1000)
  {
    GroupedThousand("1_000");
  }

  lemma GroupedThousand(t: string)
    requires |t| == 5 && t[0] == '1' && t[1] == '_' && t[2] == '0' && t[3] == '0' && t[4] == '0'
    ensures ParseInt(t) == Some(1000)
  {
    TrimOfTrimmed(t);
    GroupedDigits(t);
    GroupedWithout(t);
    Thousand();
    ParseIntGroups(t);
  }

  lemma GroupedDigits(t: string)
    requires |t| == 5 && t[0] == '1' && t[1] == '_' && t[2] == '0' && t[3] == '0' && t[4] == '0'
    ensures DigitGroups(t)
  {
  }

  lemma GroupedWithout(t: string)
    requires |t| == 5 && t[0] == '1' && t[1] == '_' && t[2] == '0' && t[3] == '0' && t[4] == '0'
    ensures Without(t, '_') == "1000"
  {
    assert t[2..] == "000";
    WithoutAbsent(t[2..], '_');
    assert Without(t, '_') == [t[0]] + Without(t[2..], '_');
  }

  lemma Thousand()
    ensures DigitsValue("1000") == 1000
  {
    assert DigitsValue("1") == 1 by { assert "1"[..0] == ""; }
    assert DigitsValue("10") == 10 by { assert "10"[..1] == "1"; }
    assert DigitsValue("100") == 100 by { assert "100"[..2] == "10"; }
    assert "1000"[..3] == "100";
  }
}

/** `formatTime` (script.js:556-564): an estimate in whole minutes shown as
    "Nm" below an hour and as "Hh" or "Hh Mm" from an hour on. */
module Duration {
  import opened Opt
  import opened Text

  function FormatTime(minutes: int): (text: string)
    ensures |text| >= 2
    ensures text[|text| - 1] == 'h' || text[|text| - 1] == 'm'
    ensures text[|text| - 1] == 'h' <==> minutes >= 60 && minutes % 60 == 0
  {
    if minutes < 60 then IntText(minutes) + "m"
    else
      var hours := minutes / 60;
      var mins := minutes % 60;
      if mins > 0 then Digits(hours) + "h " + Digits(mins) + "m"
      else Digits(hours) + "h"
  }

  /** The position of the first `c` in `s`, or `|s|` when there is none. */
  function Find(s: string, c: char): (i: nat)
    ensures i <= |s|
    ensures i < |s| ==> s[i] == c
    ensures c !in s[..i]
    decreases |s|
  {
    if s == [] then 0
    else if s[0] == c then 0
    else
      var i := Find(s[1..], c);
      assert s[..i + 1] == [s[0]] + s[1..][..i];
      i + 1
  }

  /** Reads a duration back from the text `FormatTime` shows. */
  function ReadTime(s: string): Option<int> {
    if |s| < 2 then None
    else if s[|s| - 1] == 'h' then ReadWholeHoursText(s[..|s| - 1])
    else if s[|s| - 1] == 'm' then ReadMinutesText(s[..|s| - 1])
    else None
  }

  /** "H" of "Hh". */
  function ReadWholeHoursText(hours: string): Option<int> {
    if IsNumeral(hours) then Some(60 * NumeralValue(hours)) else None
  }

  /** "H" of "Hh Mm" or "N" of "Nm" (possibly negative). */
  function ReadMinutesText(body: string): Option<int> {
    var k := Find(body, 'h');
    if k < |body| then ReadHoursMinutes(body[..k], body[k + 1..])
    else ReadSigned(body)
  }

  /** "H" and " M" of "Hh Mm". */
  function ReadHoursMinutes(hours: string, rest: string): Option<int> {
    if IsNumeral(hours) && |rest| >= 2 && rest[0] == ' ' && IsNumeral(rest[1..])
    then Some(60 * NumeralValue(hours) + NumeralValue(rest[1..]))
    else None
  }

  /** A decimal integer with an optional leading minus sign. */
  function ReadSigned(text: string): Option<int> {
    if IsNumeral(text) then Some(NumeralValue(text))
    else if |text| >= 2 && text[0] == '-' && IsNumeral(text[1..]) then
      var magnitude: int := NumeralValue(text[1..]);
      Some(-magnitude)
    else None
  }

  /** A numeral has no `h` in it, so `Find` runs past it to the next `h`. */
  lemma FindAfterNumeral(d: string, rest: string)
    requires IsNumeral(d)
    ensures Find(d + "h" + rest, 'h') == |d|
  {
    var s := d + "h" + rest;
    var i := Find(s, 'h');
    assert s[|d|] == 'h';
  }

  /** A numeral has no `h` in it. */
  lemma FindNone(d: string)
    requires forall i :: 0 <= i < |d| ==> d[i] != 'h'
    ensures Find(d, 'h') == |d|
  {
  }

  /** A text ending in "m" is read by its minutes branch. */
  lemma ReadMinutesSuffix(body: string)
    requires body != []
    ensures ReadTime(body + "m") == ReadMinutesText(body)
  {
    var s := body + "m";
    assert s[|s| - 1] == 'm';
    assert s[..|s| - 1] == body;
  }

  /** Without an "h" the minutes branch reads a signed number. */
  lemma ReadMinutesPlain(body: string)
    requires forall i :: 0 <= i < |body| ==> body[i] != 'h'
    ensures ReadMinutesText(body) == ReadSigned(body)
  {
    FindNone(body);
  }

  lemma ReadSignedNegative(d: string)
    requires IsNumeral(d)
    ensures ReadSigned("-" + d) == Some(-(NumeralValue(d) as int))
  {
    var text := "-" + d;
    assert text[1..] == d;
    assert !IsDigit(text[0]);
  }

  /** A numeral, signed or not, has no "h" in it. */
  lemma NumeralHasNoH(d: string)
    requires IsNumeral(d)
    ensures forall i :: 0 <= i < |d| ==> d[i] != 'h'
    ensures forall i :: 0 <= i < |"-" + d| ==> ("-" + d)[i] != 'h'
  {
    forall i | 0 <= i < |"-" + d| ensures ("-" + d)[i] != 'h' {
      if i > 0 {
        assert ("-" + d)[i] == d[i - 1];
        assert IsDigit(d[i - 1]);
      }
    }
  }

  lemma ReadNegativeMinutes(minutes: int)
    requires minutes < 0
    ensures ReadTime(FormatTime(minutes)) == Some(minutes)
  {
    var d := Digits(-minutes);
    DigitsRoundTrip(-minutes);
    var body := "-" + d;
    assert FormatTime(minutes) == body + "m";
    ReadMinutesSuffix(body);
    NumeralHasNoH(d);
    ReadMinutesPlain(body);
    ReadSignedNegative(d);
    assert ReadSigned(body) == Some(minutes);
  }

  lemma ReadSmallMinutes(minutes: int)
    requires 0 <= minutes < 60
    ensures ReadTime(FormatTime(minutes)) == Some(minutes)
  {
    var d := Digits(minutes);
    DigitsRoundTrip(minutes);
    assert FormatTime(minutes) == d + "m";
    ReadMinutesSuffix(d);
    NumeralHasNoH(d);
    ReadMinutesPlain(d);
  }

  lemma ReadMinutesOnly(minutes: int)
    requires minutes < 60
    ensures ReadTime(FormatTime(minutes)) == Some(minutes)
  {
    if minutes < 0 {
      ReadNegativeMinutes(minutes);
    } else {
      ReadSmallMinutes(minutes);
    }
  }

  lemma ReadSpacedMinutes(h: string, m: string)
    requires IsNumeral(h) && IsNumeral(m)
    ensures ReadHoursMinutes(h, " " + m) == Some(60 * NumeralValue(h) + NumeralValue(m))
  {
    assert (" " + m)[1..] == m;
  }

  lemma ReadHoursMinutesBody(h: string, m: string)
    requires IsNumeral(h) && IsNumeral(m)
    ensures ReadMinutesText(h + "h" + (" " + m)) == Some(60 * NumeralValue(h) + NumeralValue(m))
  {
    var body := h + "h" + (" " + m);
    FindAfterNumeral(h, " " + m);
    assert body[..|h|] == h;
    assert body[|h| + 1..] == " " + m;
    ReadSpacedMinutes(h, m);
  }

  /** Reading "Hh Mm" gives sixty times H plus M. */
  lemma ReadHoursMinutesText(h: string, m: string)
    requires IsNumeral(h) && IsNumeral(m)
    ensures ReadTime(h + "h " + m + "m") == Some(60 * NumeralValue(h) + NumeralValue(m))
  {
    var s := h + "h " + m + "m";
    var body := h + "h" + (" " + m);
    assert s == body + "m";
    assert s[..|s| - 1] == body;
    ReadHoursMinutesBody(h, m);
  }

  lemma ReadHoursAndMinutes(minutes: int)
    requires minutes >= 60 && minutes % 60 > 0
    ensures ReadTime(FormatTime(minutes)) == Some(minutes)
  {
    DigitsRoundTrip(minutes / 60);
    DigitsRoundTrip(minutes % 60);
    ReadHoursMinutesText(Digits(minutes / 60), Digits(minutes % 60));
  }

  lemma ReadWholeHours(minutes: int)
    requires minutes >= 60 && minutes % 60 == 0
    ensures ReadTime(FormatTime(minutes)) == Some(minutes)
  {
    var s := FormatTime(minutes);
    var h := Digits(minutes / 60);
    DigitsRoundTrip(minutes / 60);
    assert s == h + "h";
    assert s[..|s| - 1] == h;
  }

  /** The shown text of a duration determines it: reading it back gives the
      number of minutes, for every integer. */
  lemma FormatTimeRoundTrip(minutes: int)
    ensures ReadTime(FormatTime(minutes)) == Some(minutes)
  {
    if minutes < 60 {
      ReadMinutesOnly(minutes);
    } else if minutes % 60 > 0 {
      ReadHoursAndMinutes(minutes);
    } else {
      ReadWholeHours(minutes);
    }
  }

  /** Two durations that show the same text are equal. */
  lemma FormatTimeInjective(a: int, b: int)
    requires FormatTime(a) == FormatTime(b)
    ensures a == b
  {
    FormatTimeRoundTrip(a);
    FormatTimeRoundTrip(b);
  }
}

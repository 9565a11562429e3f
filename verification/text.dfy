/** The string operations the task manager uses, with JavaScript's meaning:
    `String.prototype.trim`, `toLowerCase` (ASCII letters only), `split` on one
    character, `Array.prototype.join`, `includes`, and the decimal text of an
    integer as a template literal renders it. */
module Text {

  /** The characters `trim` removes: ECMAScript white space and line terminators. */
  predicate IsSpace(c: char) {
    || c == ' ' || c == '\t' || c == '\n' || c == '\r'
    || c == '\U{000B}' || c == '\U{000C}' || c == '\U{00A0}' || c == '\U{1680}'
    || ('\U{2000}' <= c <= '\U{200A}')
    || c == '\U{2028}' || c == '\U{2029}' || c == '\U{202F}' || c == '\U{205F}'
    || c == '\U{3000}' || c == '\U{FEFF}'
  }

  predicate AllSpace(s: string) {
    forall i :: 0 <= i < |s| ==> IsSpace(s[i])
  }

  /** No white space at either end. */
  predicate IsTrimmed(s: string) {
    s == [] || (!IsSpace(s[0]) && !IsSpace(s[|s| - 1]))
  }

  /** `s` with its leading white space removed: the longest suffix that does
      not start with white space, all of whose removed characters are spaces. */
  function TrimStart(s: string): (r: string)
    ensures |r| <= |s| && r == s[|s| - |r|..]
    ensures forall i :: 0 <= i < |s| - |r| ==> IsSpace(s[i])
    ensures r == [] || !IsSpace(r[0])
    decreases |s|
  {
    if s != [] && IsSpace(s[0]) then
      var r := TrimStart(s[1..]);
      assert r == s[|s| - |r|..] by {
        assert s[1..][|s| - 1 - |r|..] == s[|s| - |r|..];
      }
      assert forall i :: 1 <= i < |s| - |r| ==> s[i] == s[1..][i - 1];
      r
    else s
  }

  /** `s` with its trailing white space removed. */
  function TrimEnd(s: string): (r: string)
    ensures |r| <= |s| && r == s[..|r|]
    ensures forall i :: |r| <= i < |s| ==> IsSpace(s[i])
    ensures r == [] || !IsSpace(r[|r| - 1])
    decreases |s|
  {
    if s != [] && IsSpace(s[|s| - 1]) then
      var r := TrimEnd(s[..|s| - 1]);
      assert forall i :: |r| <= i < |s| - 1 ==> s[i] == s[..|s| - 1][i];
      r
    else s
  }

  /** `String.prototype.trim`. */
  function Trim(s: string): (r: string)
    ensures IsTrimmed(r)
    ensures exists i, j :: 0 <= i <= j <= |s| && r == s[i..j] && AllSpace(s[..i]) && AllSpace(s[j..])
    ensures r == [] <==> AllSpace(s)
    ensures IsTrimmed(s) ==> r == s
  {
    var front := TrimStart(s);
    var r := TrimEnd(front);
    assert r != [] ==> r[0] == front[0];
    SpaceCuts(s, front, r);
    r
  }

  /** A prefix of a suffix is a slice; when the cut-off ends are white space,
      the slice has only white space before and after it. */
  lemma SpaceCuts(s: string, front: string, r: string)
    requires |front| <= |s| && front == s[|s| - |front|..]
    requires forall k :: 0 <= k < |s| - |front| ==> IsSpace(s[k])
    requires |r| <= |front| && r == front[..|r|]
    requires forall k :: |r| <= k < |front| ==> IsSpace(front[k])
    ensures exists i, j :: 0 <= i <= j <= |s| && r == s[i..j] && AllSpace(s[..i]) && AllSpace(s[j..])
  {
    var i := |s| - |front|;
    var j := i + |r|;
    assert r == s[i..j];
    assert AllSpace(s[..i]);
    forall k | 0 <= k < |s[j..]| ensures IsSpace(s[j..][k]) {
      assert s[j..][k] == front[|r| + k];
    }
  }

  /** Trimming adds no character. */
  lemma TrimSubset(s: string)
    ensures forall c :: c in Trim(s) ==> c in s
  {
    var front := TrimStart(s);
    var r := TrimEnd(front);
    forall c | c in r ensures c in s {
      var i :| 0 <= i < |r| && r[i] == c;
      assert front[i] == c;
      assert s[|s| - |front| + i] == c;
    }
  }

  /** `toLowerCase` on one character, for the ASCII letters. */
  function LowerChar(c: char): (d: char)
    ensures !('A' <= d <= 'Z')
    ensures !('A' <= c <= 'Z') ==> d == c
    ensures IsSpace(d) <==> IsSpace(c)
  {
    if 'A' <= c <= 'Z' then (c as int - 'A' as int + 'a' as int) as char else c
  }

  predicate IsLowerCase(s: string) {
    forall i :: 0 <= i < |s| ==> !('A' <= s[i] <= 'Z')
  }

  /** `toLowerCase`, restricted to ASCII letters. */
  function Lower(s: string): (r: string)
    ensures |r| == |s| && IsLowerCase(r)
    ensures IsLowerCase(s) ==> r == s
    ensures forall i :: 0 <= i < |s| ==> r[i] == LowerChar(s[i])
  {
    seq(|s|, i requires 0 <= i < |s| => LowerChar(s[i]))
  }

  /** Lower-casing keeps white space and commas where they are. */
  lemma LowerKeepsSpaceAndComma(s: string)
    ensures forall i :: 0 <= i < |s| ==> (IsSpace(Lower(s)[i]) <==> IsSpace(s[i]))
    ensures forall i :: 0 <= i < |s| ==> (Lower(s)[i] == ',' <==> s[i] == ',')
  {
  }

  /** `s.split(sep)`: the maximal runs of `s` between occurrences of `sep`,
      in order; there is always at least one (possibly empty) part. */
  function Split(s: string, sep: char): (parts: seq<string>)
    ensures |parts| >= 1
    ensures forall k :: 0 <= k < |parts| ==> sep !in parts[k]
    decreases |s|
  {
    if s == [] then [[]]
    else
      var rest := Split(s[1..], sep);
      if s[0] == sep then [[]] + rest
      else [[s[0]] + rest[0]] + rest[1..]
  }

  /** `parts.join(sep)`. */
  function Join(parts: seq<string>, sep: string): (r: string)
    ensures parts == [] ==> r == []
    ensures parts != [] ==> StartsWith(r, parts[0])
    ensures parts != [] ==> EndsWith(r, parts[|parts| - 1])
    decreases |parts|
  {
    if parts == [] then []
    else if |parts| == 1 then parts[0]
    else parts[0] + sep + Join(parts[1..], sep)
  }

  /** Splitting a text with no separator in it gives the text back as the only part. */
  lemma {:induction false} SplitNone(s: string, sep: char)
    requires sep !in s
    ensures Split(s, sep) == [s]
    decreases |s|
  {
    if s != [] {
      SplitNone(s[1..], sep);
      assert [s[0]] + s[1..] == s;
    }
  }

  /** A separator-free prefix is glued to the first part of what follows it. */
  lemma {:induction false} SplitPrefix(a: string, b: string, sep: char)
    requires sep !in a
    ensures Split(a + b, sep) == [a + Split(b, sep)[0]] + Split(b, sep)[1..]
    decreases |a|
  {
    if a != [] {
      assert (a + b)[1..] == a[1..] + b;
      SplitPrefix(a[1..], b, sep);
      assert [a[0]] + (a[1..] + Split(b, sep)[0]) == a + Split(b, sep)[0];
    } else {
      assert a + b == b;
      assert a + Split(b, sep)[0] == Split(b, sep)[0];
      assert Split(b, sep) == [Split(b, sep)[0]] + Split(b, sep)[1..];
    }
  }

  /** A leading separator closes an empty first part. */
  lemma SplitAfterSeparator(rest: string, sep: char)
    ensures Split([sep] + rest, sep) == [[]] + Split(rest, sep)
  {
    assert ([sep] + rest)[1..] == rest;
  }

  /** Splitting at one separator splits the text on either side of it on its
      own: the parts of the text before, then the parts of the text after. */
  lemma {:induction false} SplitAppend(a: string, b: string, sep: char)
    ensures Split(a + [sep] + b, sep) == Split(a, sep) + Split(b, sep)
    decreases |a|
  {
    if a == [] {
      assert a + [sep] + b == [sep] + b;
      SplitAfterSeparator(b, sep);
    } else {
      assert (a + [sep] + b)[1..] == a[1..] + [sep] + b;
      SplitAppend(a[1..], b, sep);
    }
  }

  /** Joining parts that contain no separator and splitting again gives the parts back. */
  lemma {:induction false} SplitJoin(parts: seq<string>, sep: char)
    requires |parts| >= 1
    requires forall k :: 0 <= k < |parts| ==> sep !in parts[k]
    ensures Split(Join(parts, [sep]), sep) == parts
    decreases |parts|
  {
    if |parts| == 1 {
      SplitNone(parts[0], sep);
      assert parts == [parts[0]];
    } else {
      var rest := Join(parts[1..], [sep]);
      SplitJoin(parts[1..], sep);
      assert Join(parts, [sep]) == parts[0] + ([sep] + rest);
      SplitPrefix(parts[0], [sep] + rest, sep);
      SplitAfterSeparator(rest, sep);
      assert parts[0] + [] == parts[0];
      assert parts == [parts[0]] + parts[1..];
    }
  }

  /** `s.startsWith(prefix)`. */
  predicate StartsWith(s: string, prefix: string) {
    |prefix| <= |s| && s[..|prefix|] == prefix
  }

  /** `s.endsWith(suffix)`. */
  predicate EndsWith(s: string, suffix: string) {
    |suffix| <= |s| && s[|s| - |suffix|..] == suffix
  }

  /** `s.includes(part)`: the empty part is found in every text, and a part
      longer than the text is never found. */
  predicate Contains(s: string, part: string)
    ensures part == [] ==> Contains(s, part)
    ensures Contains(s, part) ==> |part| <= |s|
    decreases |s|
  {
    StartsWith(s, part) || (s != [] && Contains(s[1..], part))
  }

  /** `part` occurs in `s` starting at position `i`. */
  predicate OccursAt(s: string, part: string, i: int) {
    0 <= i <= |s| - |part| && s[i..i + |part|] == part
  }

  /** `Contains` holds exactly when `part` occurs at some position of `s`. */
  lemma {:induction false} ContainsAt(s: string, part: string)
    ensures Contains(s, part) <==> exists i :: OccursAt(s, part, i)
    decreases |s|
  {
    if StartsWith(s, part) {
      assert OccursAt(s, part, 0);
    } else if s == [] {
    } else {
      ContainsAt(s[1..], part);
      if Contains(s[1..], part) {
        var i :| OccursAt(s[1..], part, i);
        assert s[1..][i..i + |part|] == s[i + 1..i + 1 + |part|];
        assert OccursAt(s, part, i + 1);
      }
      if exists i :: OccursAt(s, part, i) {
        var i :| OccursAt(s, part, i);
        assert i != 0;
        assert s[1..][i - 1..i - 1 + |part|] == s[i..i + |part|];
        assert OccursAt(s[1..], part, i - 1);
      }
    }
  }

  predicate IsDigit(c: char) {
    '0' as int <= c as int <= '9' as int
  }

  /** A non-empty run of decimal digits. */
  predicate IsNumeral(s: string) {
    |s| >= 1 && forall i :: 0 <= i < |s| ==> IsDigit(s[i])
  }

  /** The decimal text of a non-negative integer, without leading zeros. */
  function Digits(n: nat): (s: string)
    ensures IsNumeral(s)
    ensures |s| > 1 ==> s[0] != '0'
    decreases n
  {
    if n < 10 then ["0123456789"[n]]
    else Digits(n / 10) + ["0123456789"[n % 10]]
  }

  /** The integer a run of digits denotes. */
  function NumeralValue(s: string): nat
    requires forall i :: 0 <= i < |s| ==> IsDigit(s[i])
    decreases |s|
  {
    if s == [] then 0
    else
      assert IsDigit(s[|s| - 1]);
      NumeralValue(s[..|s| - 1]) * 10 + (s[|s| - 1] as int - '0' as int)
  }

  /** Reading back the decimal text of `n` gives `n`. */
  lemma {:induction false} DigitsRoundTrip(n: nat)
    ensures NumeralValue(Digits(n)) == n
    decreases n
  {
    if n >= 10 {
      DigitsRoundTrip(n / 10);
      var s := Digits(n);
      assert s[..|s| - 1] == Digits(n / 10);
    }
  }

  /** The text of an integer in a template literal: `-` and the digits of its
      magnitude when negative. */
  function IntText(n: int): string {
    if n < 0 then "-" + Digits(-n) else Digits(n)
  }
}

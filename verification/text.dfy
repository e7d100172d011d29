/**
 The string operations the source takes from JavaScript: case mapping, `trim`,
 `split`/`join`, and the decimal rendering of integers (`${n}`) and of a mean
 with two decimals (`toFixed(2)`).
 */
module Text {
  import opened Base

  // ---------------------------------------------------------------------------
  // Characters

  predicate IsDigit(c: char) {
    '0' <= c <= '9'
  }

  predicate AllDigits(s: string) {
    forall i :: 0 <= i < |s| ==> IsDigit(s[i])
  }

  function DigitChar(d: nat): (c: char)
    requires d < 10
    ensures IsDigit(c)
  {
    ('0' as int + d) as char
  }

  function DigitVal(c: char): nat {
    if IsDigit(c) then c as int - '0' as int else 0
  }

  /** ASCII lower case; other characters are kept. */
  function LowerChar(c: char): char {
    if 'A' <= c <= 'Z' then (c as int + 32) as char else c
  }

  /** ASCII upper case; other characters are kept. */
  function UpperChar(c: char): char {
    if 'a' <= c <= 'z' then (c as int - 32) as char else c
  }

  function Lower(s: string): (r: string)
    ensures |r| == |s|
  {
    seq(|s|, i requires 0 <= i < |s| => LowerChar(s[i]))
  }

  function Upper(s: string): (r: string)
    ensures |r| == |s|
  {
    seq(|s|, i requires 0 <= i < |s| => UpperChar(s[i]))
  }

  /** Lower-casing twice is lower-casing once: a grouping key is its own key. */
  lemma LowerIdempotent(s: string)
    ensures Lower(Lower(s)) == Lower(s)
  {
  }

  /** Upper-casing forgets the original case: strings equal up to ASCII case map to the same key. */
  lemma UpperOfLower(s: string)
    ensures Upper(Lower(s)) == Upper(s)
  {
    assert forall i :: 0 <= i < |s| ==> UpperChar(LowerChar(s[i])) == UpperChar(s[i]);
  }

  /**
   ECMAScript WhiteSpace and LineTerminator code points (ECMA-262, sections
   12.2 and 12.3), which `String.prototype.trim` removes.
   */
  predicate IsJsSpace(c: char) {
    c in JsSpaceChars
  }

  const JsSpaceChars: set<char> := {
    '\t', '\n', '\U{000B}', '\U{000C}', '\r', ' ', '\U{00A0}', '\U{1680}',
    '\U{2000}', '\U{2001}', '\U{2002}', '\U{2003}', '\U{2004}', '\U{2005}',
    '\U{2006}', '\U{2007}', '\U{2008}', '\U{2009}', '\U{200A}',
    '\U{2028}', '\U{2029}', '\U{202F}', '\U{205F}', '\U{3000}', '\U{FEFF}'
  }

  predicate AllSpace(s: string) {
    forall i :: 0 <= i < |s| ==> IsJsSpace(s[i])
  }

  function CountChar(s: string, c: char): nat {
    if |s| == 0 then 0 else (if s[0] == c then 1 else 0) + CountChar(s[1..], c)
  }

  // ---------------------------------------------------------------------------
  // trim

  /** The number of white-space characters `s` starts with. */
  function LeadingSpace(s: string): (n: nat)
    ensures n <= |s|
    ensures forall k :: 0 <= k < n ==> IsJsSpace(s[k])
    ensures n == |s| || !IsJsSpace(s[n])
  {
    if |s| > 0 && IsJsSpace(s[0]) then 1 + LeadingSpace(s[1..]) else 0
  }

  /** The length of `s` without its trailing white space. */
  function ContentEnd(s: string): (n: nat)
    ensures n <= |s|
    ensures forall k :: n <= k < |s| ==> IsJsSpace(s[k])
    ensures n == 0 || !IsJsSpace(s[n - 1])
  {
    if |s| > 0 && IsJsSpace(s[|s| - 1]) then ContentEnd(s[..|s| - 1]) else |s|
  }

  /** `r` occurs in `s` at offset `i`, and only white space lies around it. */
  predicate TrimmedAt(s: string, r: string, i: nat) {
    && i + |r| <= |s|
    && (forall k :: 0 <= k < |r| ==> s[i + k] == r[k])
    && (forall k :: 0 <= k < i ==> IsJsSpace(s[k]))
    && (forall k :: i + |r| <= k < |s| ==> IsJsSpace(s[k]))
  }

  /** `String.prototype.trim`: the longest slice of `s` that neither starts nor ends with white space. */
  function Trim(s: string): (r: string)
    ensures |r| == 0 || (!IsJsSpace(r[0]) && !IsJsSpace(r[|r| - 1]))
    ensures exists i: nat :: TrimmedAt(s, r, i)
  {
    var i := LeadingSpace(s);
    var j := ContentEnd(s);
    if i < j then
      assert TrimmedAt(s, s[i..j], i);
      s[i..j]
    else
      assert TrimmedAt(s, "", i);
      ""
  }

  // ---------------------------------------------------------------------------
  // split and join

  /** `parts.join(sep)`. */
  function Join(parts: seq<string>, sep: string): string {
    if |parts| == 0 then ""
    else if |parts| == 1 then parts[0]
    else parts[0] + sep + Join(parts[1..], sep)
  }

  /** `s.split(sep)` for a one-character separator: every piece, empty ones included. */
  function Split(s: string, sep: char): (r: seq<string>)
    ensures |r| == CountChar(s, sep) + 1
    ensures forall i :: 0 <= i < |r| ==> sep !in r[i]
  {
    if |s| == 0 then [""]
    else
      var rest := Split(s[1..], sep);
      if s[0] == sep then [""] + rest
      else [[s[0]] + rest[0]] + rest[1..]
  }

  /** Splitting loses nothing: joining the pieces with the separator gives the string back. */
  lemma {:induction false} JoinSplit(s: string, sep: char)
    ensures Join(Split(s, sep), [sep]) == s
    decreases |s|
  {
    if |s| > 0 {
      var rest := Split(s[1..], sep);
      JoinSplit(s[1..], sep);
      if s[0] == sep {
        assert ([""] + rest)[1..] == rest;
      } else if |rest| == 1 {
        assert Split(s, sep) == [[s[0]] + rest[0]];
      } else {
        var parts := [[s[0]] + rest[0]] + rest[1..];
        assert parts[1..] == rest[1..];
        assert Join(rest, [sep]) == rest[0] + [sep] + Join(rest[1..], [sep]);
        assert s == [s[0]] + s[1..];
      }
    }
  }

  /** A piece without the separator is split off whole. */
  lemma {:induction false} SplitFront(a: string, sep: char, b: string)
    requires sep !in a
    ensures Split(a + [sep] + b, sep) == [a] + Split(b, sep)
    decreases |a|
  {
    if |a| == 0 {
      assert a + [sep] + b == [sep] + b;
      assert ([sep] + b)[1..] == b;
    } else {
      var s := a + [sep] + b;
      assert s[0] == a[0];
      assert s[1..] == a[1..] + [sep] + b;
      SplitFront(a[1..], sep, b);
      assert [a[0]] + a[1..] == a;
    }
  }

  lemma {:induction false} SplitWhole(a: string, sep: char)
    requires sep !in a
    ensures Split(a, sep) == [a]
    decreases |a|
  {
    if |a| > 0 {
      SplitWhole(a[1..], sep);
      assert [a[0]] + a[1..] == a;
    }
  }

  /** Splitting undoes joining, for pieces without the separator. */
  lemma {:induction false} SplitJoin(parts: seq<string>, sep: char)
    requires |parts| > 0
    requires forall i :: 0 <= i < |parts| ==> sep !in parts[i]
    ensures Split(Join(parts, [sep]), sep) == parts
    decreases |parts|
  {
    if |parts| == 1 {
      SplitWhole(parts[0], sep);
    } else {
      SplitJoin(parts[1..], sep);
      SplitFront(parts[0], sep, Join(parts[1..], [sep]));
      assert [parts[0]] + parts[1..] == parts;
    }
  }

  // ---------------------------------------------------------------------------
  // Decimal rendering

  /** The digits of `n` with no leading zero: JavaScript's `${n}` for a non-negative integer. */
  function ShowNat(n: nat): (r: string)
    ensures |r| >= 1 && AllDigits(r)
    ensures r[0] == '0' ==> n == 0
  {
    if n < 10 then [DigitChar(n)] else ShowNat(n / 10) + [DigitChar(n % 10)]
  }

  /** `${n}` for an integer. */
  function ShowInt(n: int): (r: string)
    ensures |r| >= 1
  {
    if n < 0 then "-" + ShowNat(-n) else ShowNat(n)
  }

  /** The value of a string of decimal digits (non-digits count as 0). */
  function ParseNat(s: string): nat {
    if |s| == 0 then 0 else ParseNat(s[..|s| - 1]) * 10 + DigitVal(s[|s| - 1])
  }

  function ParseInt(s: string): int {
    if |s| > 0 && s[0] == '-' then -(ParseNat(s[1..]) as int) else ParseNat(s)
  }

  lemma {:induction false} ParseShowNat(n: nat)
    ensures ParseNat(ShowNat(n)) == n
  {
    if n >= 10 {
      var p := ShowNat(n / 10);
      assert (p + [DigitChar(n % 10)])[..|p|] == p;
      ParseShowNat(n / 10);
    }
  }

  /** Rendering an integer loses nothing: parsing the text gives the number back. */
  lemma ParseShowInt(n: int)
    ensures ParseInt(ShowInt(n)) == n
  {
    if n < 0 {
      assert ("-" + ShowNat(-n))[1..] == ShowNat(-n);
      ParseShowNat(-n);
    } else {
      ParseShowNat(n);
    }
  }

  /** Leading zeros do not change the value of a digit string. */
  lemma {:induction false} ParseNatLeadingZero(s: string)
    ensures ParseNat(['0'] + s) == ParseNat(s)
    decreases |s|
  {
    if |s| > 0 {
      var s' := s[..|s| - 1];
      assert (['0'] + s)[..|s|] == ['0'] + s';
      ParseNatLeadingZero(s');
    }
  }

  function PadZeros(s: string, width: nat): (r: string)
    ensures |r| >= width && |r| >= |s|
    decreases width - |s|
  {
    if |s| >= width then s else PadZeros(['0'] + s, width)
  }

  lemma {:induction false} PadZerosValue(s: string, width: nat)
    requires AllDigits(s)
    ensures AllDigits(PadZeros(s, width))
    ensures ParseNat(PadZeros(s, width)) == ParseNat(s)
    decreases width - |s|
  {
    if |s| < width {
      ParseNatLeadingZero(s);
      PadZerosValue(['0'] + s, width);
    }
  }

  /** The digits of `s`, in order (sign and decimal point dropped). */
  function DigitsOf(s: string): string {
    if |s| == 0 then "" else DigitsOf(s[..|s| - 1]) + (if IsDigit(s[|s| - 1]) then [s[|s| - 1]] else "")
  }

  lemma {:induction false} DigitsOfAppend(a: string, b: string)
    ensures DigitsOf(a + b) == DigitsOf(a) + DigitsOf(b)
    decreases |b|
  {
    if |b| > 0 {
      var b' := b[..|b| - 1];
      assert (a + b)[..|a + b| - 1] == a + b';
      DigitsOfAppend(a, b');
    } else {
      assert a + b == a;
    }
  }

  lemma {:induction false} DigitsOfDigits(s: string)
    requires AllDigits(s)
    ensures DigitsOf(s) == s
    decreases |s|
  {
    if |s| > 0 {
      DigitsOfDigits(s[..|s| - 1]);
    }
  }

  /** |num/den| times 100, rounded to the nearest integer with halves rounded up. */
  function RoundedHundredths(num: int, den: nat): nat
    requires den > 0
  {
    (200 * Abs(num) + den) / (2 * den)
  }

  /** A digit string of at least three digits, with the point before the last two and an optional minus sign. */
  function PointBeforeLastTwo(negative: bool, digits: string): (r: string)
    requires |digits| >= 3
  {
    (if negative then "-" else "") + digits[..|digits| - 2] + "." + digits[|digits| - 2..]
  }

  lemma PointBeforeLastTwoDigits(negative: bool, digits: string)
    requires |digits| >= 3 && AllDigits(digits)
    ensures DigitsOf(PointBeforeLastTwo(negative, digits)) == digits
  {
    var sign: string := if negative then "-" else "";
    var ip := digits[..|digits| - 2];
    var fp := digits[|digits| - 2..];
    assert ip + fp == digits;
    assert PointBeforeLastTwo(negative, digits) == (sign + ip) + ("." + fp);
    DigitsOfAppend(sign + ip, "." + fp);
    DigitsOfAppend(sign, ip);
    DigitsOfAppend(".", fp);
    DigitsOfDigits(ip);
    DigitsOfDigits(fp);
    var a := DigitsOf(sign + ip);
    var b := DigitsOf("." + fp);
    assert a == ip by {
      if negative {
        NoDigitChar('-');
      } else {
        assert sign + ip == ip;
      }
    }
    assert b == fp by {
      NoDigitChar('.');
    }
  }

  lemma NoDigitChar(c: char)
    requires !IsDigit(c)
    ensures DigitsOf([c]) == ""
  {
    assert [c][..0] == [];
  }

  /**
   `x.toFixed(2)` for the exact quotient x = num/den: a minus sign when x is
   negative, then the rounded magnitude with two digits after the point.
   */
  function ToFixed2(num: int, den: nat): (r: string)
    requires den > 0
    ensures |r| >= 4 && r[|r| - 3] == '.'
    ensures AllDigits(r[|r| - 2..])
    ensures (r[0] == '-') <==> num < 0
  {
    var digits := PadZeros(ShowNat(RoundedHundredths(num, den)), 3);
    PadZerosValue(ShowNat(RoundedHundredths(num, den)), 3);
    PointBeforeLastTwo(num < 0, digits)
  }

  lemma DivBounds(x: nat, d: nat)
    requires d > 0
    ensures d * (x / d) <= x < d * (x / d) + d
  {
  }

  /** The digits of `ToFixed2(num, den)` are those of the rounded hundredths. */
  lemma ToFixed2Digits(num: int, den: nat)
    requires den > 0
    ensures ParseNat(DigitsOf(ToFixed2(num, den))) == RoundedHundredths(num, den)
  {
    var n := RoundedHundredths(num, den);
    var digits := PadZeros(ShowNat(n), 3);
    PadZerosValue(ShowNat(n), 3);
    ParseShowNat(n);
    PointBeforeLastTwoDigits(num < 0, digits);
  }

  /**
   The digits `toFixed(2)` prints, read as hundredths, are within half a
   hundredth of |num/den|: 2·den·v lies in [200·|num| − den, 200·|num| + den).
   */
  lemma ToFixed2Accurate(num: int, den: nat)
    requires den > 0
    ensures var v := ParseNat(DigitsOf(ToFixed2(num, den)));
      && 2 * den * v <= 200 * Abs(num) + den
      && 200 * Abs(num) + den < 2 * den * (v + 1)
  {
    ToFixed2Digits(num, den);
    DivBounds(200 * Abs(num) + den, 2 * den);
  }
}

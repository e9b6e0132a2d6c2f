/** Character-level helpers shared by the date/time code and the editors:
    decimal digits, zero padding, `Number.prototype.toString` on integers,
    `String.prototype.padStart(2, '0')`, `String.prototype.trim` and
    counting the pieces of `String.prototype.split`. */
module Text {

  predicate IsDigit(c: char) { '0' <= c <= '9' }

  predicate AllDigits(s: string) { forall i | 0 <= i < |s| :: IsDigit(s[i]) }

  function DigitValue(c: char): nat
    requires IsDigit(c)
  {
    c as int - '0' as int
  }

  function DigitChar(d: nat): (c: char)
    requires d < 10
    ensures IsDigit(c) && DigitValue(c) == d
  {
    ('0' as int + d) as char
  }

  function Pow10(k: nat): (p: nat)
    ensures p >= 1
  {
    if k == 0 then 1 else 10 * Pow10(k - 1)
  }

  /** The number a string of decimal digits denotes, most significant digit first. */
  function DigitsValue(s: string): (v: nat)
    requires AllDigits(s)
    ensures v < Pow10(|s|)
  {
    if s == [] then 0 else DigitsValue(s[..|s| - 1]) * 10 + DigitValue(s[|s| - 1])
  }

  /** The lowest `width` decimal digits of `n`, zero-padded on the left. */
  function PadNum(n: nat, width: nat): (s: string)
    ensures |s| == width && AllDigits(s)
  {
    if width == 0 then [] else PadNum(n / 10, width - 1) + [DigitChar(n % 10)]
  }

  /** Writing a number with enough digits and reading it back gives the number. */
  lemma {:induction false} PadNumValue(n: nat, width: nat)
    requires n < Pow10(width)
    ensures DigitsValue(PadNum(n, width)) == n
  {
    if width > 0 {
      PadNumValue(n / 10, width - 1);
      var s := PadNum(n, width);
      assert s[..|s| - 1] == PadNum(n / 10, width - 1);
    }
  }

  /** Reading a string of digits and writing the number back at the same
      width gives the string. */
  lemma {:induction false} DigitsPadded(s: string)
    requires AllDigits(s)
    ensures PadNum(DigitsValue(s), |s|) == s
  {
    if s != [] {
      var init := s[..|s| - 1];
      var c := s[|s| - 1];
      DigitsPadded(init);
      var v := DigitsValue(s);
      assert v == DigitsValue(init) * 10 + DigitValue(c);
      assert v / 10 == DigitsValue(init) && v % 10 == DigitValue(c);
      assert DigitChar(DigitValue(c)) == c;
      assert s == init + [c];
    }
  }

  /** `n.toString()` for a non-negative integer: no leading zeros. */
  function NatText(n: nat): (s: string)
    ensures |s| >= 1 && AllDigits(s)
  {
    if n < 10 then [DigitChar(n)] else NatText(n / 10) + [DigitChar(n % 10)]
  }

  /** `n.toString()` for any integer. */
  function IntText(n: int): (s: string)
    ensures n < 0 <==> (|s| > 0 && s[0] == '-')
  {
    if n < 0 then "-" + NatText(-n) else NatText(n)
  }

  /** A number with exactly `width` significant digits is written the same
      way by `toString` and by zero padding to `width`. */
  lemma {:induction false} NatTextIsPadded(n: nat, width: nat)
    requires width >= 1 && Pow10(width - 1) <= n < Pow10(width)
    ensures NatText(n) == PadNum(n, width)
  {
    if width > 1 {
      NatTextIsPadded(n / 10, width - 1);
    }
  }

  /** `toString` is injective on the non-negative integers. */
  lemma {:induction false} NatTextValue(n: nat)
    ensures DigitsValue(NatText(n)) == n
  {
    if n >= 10 {
      NatTextValue(n / 10);
      var s := NatText(n);
      assert s[..|s| - 1] == NatText(n / 10);
    }
  }

  /** The characters `String.prototype.trim` removes: ECMAScript WhiteSpace
      and LineTerminator. */
  predicate IsJsWhitespace(c: char) {
    || c == '\t' || c == '\n' || c == '\U{000B}' || c == '\U{000C}' || c == '\r'
    || c == ' ' || c == '\U{00A0}' || c == '\U{1680}'
    || ('\U{2000}' <= c <= '\U{200A}')
    || c == '\U{2028}' || c == '\U{2029}' || c == '\U{202F}' || c == '\U{205F}'
    || c == '\U{3000}' || c == '\U{FEFF}'
  }

  predicate IsBlank(s: string) { forall i | 0 <= i < |s| :: IsJsWhitespace(s[i]) }

  /** The number of whitespace characters at the start of `s`. */
  function LeadingSpace(s: string): (k: nat)
    ensures k <= |s| && IsBlank(s[..k])
    ensures k < |s| ==> !IsJsWhitespace(s[k])
  {
    if s != [] && IsJsWhitespace(s[0]) then
      assert s[..1 + LeadingSpace(s[1..])] == [s[0]] + s[1..][..LeadingSpace(s[1..])];
      1 + LeadingSpace(s[1..])
    else 0
  }

  /** The number of whitespace characters at the end of `s`. */
  function TrailingSpace(s: string): (k: nat)
    ensures k <= |s| && IsBlank(s[|s| - k..])
    ensures k < |s| ==> !IsJsWhitespace(s[|s| - k - 1])
  {
    if s != [] && IsJsWhitespace(s[|s| - 1]) then
      var init := s[..|s| - 1];
      var k := TrailingSpace(init);
      var tail := s[|s| - (1 + k)..];
      assert tail == init[|init| - k..] + [s[|s| - 1]];
      assert forall i | 0 <= i < |tail| :: IsJsWhitespace(tail[i]) by {
        forall i | 0 <= i < |tail| ensures IsJsWhitespace(tail[i]) {
          if i < k { assert tail[i] == init[|init| - k..][i]; }
        }
      }
      1 + k
    else 0
  }

  /** `s.trim()`: `s` without its leading and trailing whitespace. */
  function Trim(s: string): (r: string)
    ensures r == [] <==> IsBlank(s)
    ensures r != [] ==> !IsJsWhitespace(r[0]) && !IsJsWhitespace(r[|r| - 1])
  {
    var a := LeadingSpace(s);
    var t := s[a..];
    var b := TrailingSpace(t);
    assert a < |s| ==> t != [] && !IsJsWhitespace(t[0]);
    assert s[..a] + t == s;
    assert s[a + |t| - b..] == t[|t| - b..];
    t[..|t| - b]
  }

  /** Trimming removes only whitespace, and only at the two ends. */
  lemma TrimRemovesOnlyEndSpace(s: string)
    ensures exists i, j :: 0 <= i <= j <= |s| && Trim(s) == s[i..j] && IsBlank(s[..i]) && IsBlank(s[j..])
  {
    var a := LeadingSpace(s);
    var t := s[a..];
    var b := TrailingSpace(t);
    assert s[a + |t| - b..] == t[|t| - b..];
    assert Trim(s) == s[a..a + |t| - b];
  }

  /** Trimming twice trims no more than trimming once. */
  lemma TrimIdempotent(s: string)
    ensures Trim(Trim(s)) == Trim(s)
  {
    var r := Trim(s);
    if r != [] {
      assert LeadingSpace(r) == 0;
      assert TrailingSpace(r) == 0;
    }
  }

  /** The number of occurrences of `c` in `s`. */
  function Occurrences(s: string, c: char): (n: nat)
    ensures n <= |s|
    ensures n == 0 <==> c !in s
  {
    if s == [] then 0 else Occurrences(s[..|s| - 1], c) + (if s[|s| - 1] == c then 1 else 0)
  }

  /** `s.split(sep).length` for a one-character separator: one more piece
      than there are separators. */
  function SplitLength(s: string, sep: char): (n: nat)
    ensures n >= 1
  {
    Occurrences(s, sep) + 1
  }

  /** Trimming leaves a string alone when it neither starts nor ends with whitespace. */
  lemma TrimUnchanged(s: string)
    requires s != [] && !IsJsWhitespace(s[0]) && !IsJsWhitespace(s[|s| - 1])
    ensures Trim(s) == s
  {
    assert LeadingSpace(s) == 0;
    assert s[0..] == s;
    assert TrailingSpace(s) == 0;
  }

  /** A space after a string with no whitespace at its ends is trimmed away. */
  lemma TrimDropsTrailingSpace(s: string)
    requires s != [] && !IsJsWhitespace(s[0]) && !IsJsWhitespace(s[|s| - 1])
    ensures Trim(s + " ") == s
  {
    var p := s + " ";
    assert p[0] == s[0];
    assert LeadingSpace(p) == 0;
    assert p[0..] == p;
    assert p[..|p| - 1] == s;
    assert TrailingSpace(s) == 0;
    assert TrailingSpace(p) == 1;
  }

  lemma {:induction false} OccurrencesConcat(a: string, b: string, c: char)
    ensures Occurrences(a + b, c) == Occurrences(a, c) + Occurrences(b, c)
    decreases |b|
  {
    if b != [] {
      assert (a + b)[..|a + b| - 1] == a + b[..|b| - 1];
      OccurrencesConcat(a, b[..|b| - 1], c);
    } else {
      assert a + b == a;
    }
  }
}

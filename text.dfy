/** The string operations the core uses: `String.prototype.trim`, `String(n)` for a
    natural number and `padStart(2, '0')`. */
module Text {

  /** The characters `trim` removes: ECMAScript WhiteSpace and LineTerminator code points. */
  predicate IsWhite(c: char) {
    c == ' ' || c == '\t' || c == '\n' || c == '\r' || c == '\U{000B}' || c == '\U{000C}'
    || c == '\U{00A0}' || c == '\U{1680}' || ('\U{2000}' <= c <= '\U{200A}')
    || c == '\U{2028}' || c == '\U{2029}' || c == '\U{202F}' || c == '\U{205F}'
    || c == '\U{3000}' || c == '\U{FEFF}'
  }

  predicate AllWhite(s: string) {
    forall i | 0 <= i < |s| :: IsWhite(s[i])
  }

  /** Length of the longest all-white prefix. */
  function LeadingWhite(s: string): (n: nat)
    ensures n <= |s| && AllWhite(s[..n])
    ensures n < |s| ==> !IsWhite(s[n])
  {
    if s == [] || !IsWhite(s[0]) then 0
    else
      var n := 1 + LeadingWhite(s[1..]);
      assert forall i | 1 <= i < n :: s[..n][i] == s[1..][..n - 1][i - 1];
      n
  }

  /** Length of the longest all-white suffix. */
  function TrailingWhite(s: string): (n: nat)
    ensures n <= |s| && AllWhite(s[|s| - n..])
    ensures n < |s| ==> !IsWhite(s[|s| - n - 1])
  {
    if s == [] || !IsWhite(s[|s| - 1]) then 0
    else
      1 + TrailingWhite(s[..|s| - 1])
  }

  /** `s.trim()`: `s` without its leading and trailing white space. */
  function Trim(s: string): (r: string)
    ensures |r| <= |s|
    ensures r == "" || (!IsWhite(r[0]) && !IsWhite(r[|r| - 1]))
    ensures r == "" <==> AllWhite(s)
  {
    var a := LeadingWhite(s);
    if a == |s| then ""
    else
      var b := TrailingWhite(s);
      forall i | |s| - b <= i < |s| ensures IsWhite(s[i]) {
        assert s[|s| - b..][i - (|s| - b)] == s[i];
      }
      assert |s| - b > a;
      assert !AllWhite(s) by { assert !IsWhite(s[a]); }
      s[a..|s| - b]
  }

  /** Every string is its trimmed text with white space around it. */
  lemma TrimSplit(s: string) returns (pre: string, post: string)
    ensures AllWhite(pre) && AllWhite(post)
    ensures s == pre + Trim(s) + post
  {
    var a := LeadingWhite(s);
    if a == |s| {
      pre, post := s, "";
    } else {
      var b := TrailingWhite(s);
      pre, post := s[..a], s[|s| - b..];
      assert s == s[..a] + s[a..|s| - b] + s[|s| - b..];
    }
  }

  lemma {:induction false} LeadingWhiteOfPadded(pre: string, t: string)
    requires AllWhite(pre) && t != "" && !IsWhite(t[0])
    ensures LeadingWhite(pre + t) == |pre|
  {
    if pre != [] {
      assert (pre + t)[1..] == pre[1..] + t;
      LeadingWhiteOfPadded(pre[1..], t);
    }
  }

  lemma {:induction false} TrailingWhiteOfPadded(t: string, post: string)
    requires AllWhite(post) && t != "" && !IsWhite(t[|t| - 1])
    ensures TrailingWhite(t + post) == |post|
  {
    if post != [] {
      assert (t + post)[..|t + post| - 1] == t + post[..|post| - 1];
      TrailingWhiteOfPadded(t, post[..|post| - 1]);
    }
  }

  /** Trimming white space from around a text whose ends are not white gives back that text:
      together with `TrimSplit` this characterises `Trim` completely. */
  lemma TrimOfPadded(pre: string, t: string, post: string)
    requires AllWhite(pre) && AllWhite(post)
    requires t == "" || (!IsWhite(t[0]) && !IsWhite(t[|t| - 1]))
    ensures Trim(pre + t + post) == t
  {
    var s := pre + t + post;
    if t == "" {
      assert s == pre + post;
      assert AllWhite(s) by {
        forall i | 0 <= i < |s| ensures IsWhite(s[i]) {
          if i < |pre| { assert s[i] == pre[i]; } else { assert s[i] == post[i - |pre|]; }
        }
      }
    } else {
      assert s == pre + (t + post);
      LeadingWhiteOfPadded(pre, t + post);
      assert s == (pre + t) + post;
      TrailingWhiteOfPadded(pre + t, post);
      assert s[|pre|..|s| - |post|] == t;
    }
  }

  /** Trimming twice is trimming once. */
  lemma TrimIdempotent(s: string)
    ensures Trim(Trim(s)) == Trim(s)
  {
    TrimOfPadded("", Trim(s), "");
    assert "" + Trim(s) + "" == Trim(s);
  }

  predicate IsDigit(c: char) { '0' <= c <= '9' }

  predicate AllDigits(s: string) { forall i | 0 <= i < |s| :: IsDigit(s[i]) }

  function DigitChar(d: nat): (c: char)
    requires d < 10
    ensures IsDigit(c)
  {
    (48 + d) as char
  }

  function DigitValue(c: char): (d: nat)
    requires IsDigit(c)
    ensures d < 10
  {
    (c as int) - 48
  }

  /** `String(n)` for a natural number: its decimal digits without leading zeros. */
  function Decimal(n: nat): (r: string)
    ensures 1 <= |r| && AllDigits(r)
    ensures n < 10 <==> |r| == 1
  {
    if n < 10 then [DigitChar(n)] else Decimal(n / 10) + [DigitChar(n % 10)]
  }

  /** The number a string of decimal digits denotes. */
  function ParseDecimal(s: string): nat
    requires AllDigits(s)
  {
    if s == [] then 0 else 10 * ParseDecimal(s[..|s| - 1]) + DigitValue(s[|s| - 1])
  }

  lemma {:induction false} ParseDecimalOfDecimal(n: nat)
    ensures ParseDecimal(Decimal(n)) == n
  {
    if n >= 10 {
      ParseDecimalOfDecimal(n / 10);
      var r := Decimal(n);
      assert r[..|r| - 1] == Decimal(n / 10);
    }
  }

  lemma {:induction false} DecimalShort(n: nat)
    requires n < 100
    ensures |Decimal(n)| <= 2
  {
    if n >= 10 {
      assert n / 10 < 10;
    }
  }

  /** A leading zero does not change the value of a digit string. */
  lemma {:induction false} ParseLeadingZero(s: string)
    requires AllDigits(s)
    ensures AllDigits("0" + s) && ParseDecimal("0" + s) == ParseDecimal(s)
  {
    if s != [] {
      assert ("0" + s)[..|s|] == "0" + s[..|s| - 1];
      ParseLeadingZero(s[..|s| - 1]);
    } else {
      assert ("0" + s)[..0] == [];
    }
  }

  /** `String(n).padStart(2, '0')`. */
  function TwoDigits(n: nat): (r: string)
    ensures AllDigits(r) && 2 <= |r|
    ensures n < 100 ==> |r| == 2
    ensures ParseDecimal(r) == n
  {
    var d := Decimal(n);
    ParseDecimalOfDecimal(n);
    if |d| >= 2 then d
    else
      ParseLeadingZero(d);
      "0" + d
  }

  /** Distinct numbers are written differently. */
  lemma TwoDigitsInjective(m: nat, n: nat)
    requires TwoDigits(m) == TwoDigits(n)
    ensures m == n
  {
  }
}

// The JavaScript string primitives the backend relies on: String.prototype.trim
// (applied by the schemas' `trim: true` option and by the vehicle controller),
// parseInt with no radix (the duration estimator and the search's capacity
// parameter), and the /^\d{6}$/ pincode pattern of the booking schema.
module JsText {
  import opened Basics

  /** The white-space and line-terminator characters that trim and parseInt skip. */
  predicate IsWhitespace(c: char)
  {
    c == ' ' || c == '\t' || c == '\n' || c == '\r' || c == '\U{B}' || c == '\U{C}'
    || c == '\U{A0}' || c == '\U{FEFF}' || c == '\U{2028}' || c == '\U{2029}'
  }

  /** `s` without its leading white space. */
  function TrimStart(s: string): (r: string)
    ensures |r| <= |s| && r == s[|s| - |r|..]
    ensures r != [] ==> !IsWhitespace(r[0])
    ensures forall i :: 0 <= i < |s| - |r| ==> IsWhitespace(s[i])
  {
    if s != [] && IsWhitespace(s[0]) then TrimStart(s[1..]) else s
  }

  /** `s` without its trailing white space. */
  function TrimEnd(s: string): (r: string)
    ensures |r| <= |s| && r == s[..|r|]
    ensures r != [] ==> !IsWhitespace(r[|r| - 1])
    ensures forall i :: |r| <= i < |s| ==> IsWhitespace(s[i])
  {
    if s != [] && IsWhitespace(s[|s| - 1]) then TrimEnd(s[..|s| - 1]) else s
  }

  /** String.prototype.trim. */
  function Trim(s: string): string
  {
    TrimEnd(TrimStart(s))
  }

  /** Neither end of `s` is white space. */
  predicate IsTrimmed(s: string)
  {
    s != [] ==> !IsWhitespace(s[0]) && !IsWhitespace(s[|s| - 1])
  }

  /** Trimming yields a trimmed string, and a trimmed string is its own trim. */
  lemma TrimSpec(s: string)
    ensures IsTrimmed(Trim(s))
    ensures IsTrimmed(s) ==> Trim(s) == s
    ensures Trim(Trim(s)) == Trim(s)
  {
    TrimIsTrimmed(s);
    TrimmedFixed(Trim(s));
    if IsTrimmed(s) {
      TrimmedFixed(s);
    }
  }

  lemma TrimIsTrimmed(s: string)
    ensures IsTrimmed(Trim(s))
  {
    var a := TrimStart(s);
    var b := TrimEnd(a);
    if b != [] {
      assert b[0] == a[0];
    }
  }

  lemma TrimmedFixed(s: string)
    requires IsTrimmed(s)
    ensures TrimStart(s) == s && TrimEnd(s) == s
  {
  }

  predicate IsDigit(c: char)
  {
    '0' <= c <= '9'
  }

  function DigitValue(c: char): (r: nat)
    requires IsDigit(c)
    ensures r <= 9
  {
    c as int - '0' as int
  }

  predicate AllDigits(s: string)
  {
    forall i :: 0 <= i < |s| ==> IsDigit(s[i])
  }

  /** The decimal value of a string of digits. */
  function DigitsValue(s: string): (r: nat)
    requires AllDigits(s)
  {
    if s == [] then 0 else DigitsValue(s[..|s| - 1]) * 10 + DigitValue(s[|s| - 1])
  }

  function Pow10(n: nat): (r: nat)
    ensures r >= 1
  {
    if n == 0 then 1 else 10 * Pow10(n - 1)
  }

  /** A string of n digits denotes a number below 10^n. */
  lemma {:induction false} DigitsValueBound(s: string)
    requires AllDigits(s)
    ensures DigitsValue(s) < Pow10(|s|)
  {
    if s != [] {
      DigitsValueBound(s[..|s| - 1]);
    }
  }

  /** The longest prefix of `s` made of decimal digits. */
  function LeadingDigits(s: string): (r: string)
    ensures AllDigits(r) && |r| <= |s| && r == s[..|r|]
    ensures |r| < |s| ==> !IsDigit(s[|r|])
  {
    if s != [] && IsDigit(s[0]) then [s[0]] + LeadingDigits(s[1..]) else []
  }

  /**
   * parseInt with no radix, on a string argument: leading white space is
   * skipped, one optional sign is read, then the longest run of decimal digits;
   * no digit at all gives NaN (None). Everything after the digits is ignored.
   */
  function ParseInt(s: string): Option<int>
  {
    var t := TrimStart(s);
    var negative := t != [] && t[0] == '-';
    var body := if t != [] && (t[0] == '-' || t[0] == '+') then t[1..] else t;
    var digits := LeadingDigits(body);
    var value: int := if digits == [] then 0 else DigitsValue(digits);
    if digits == [] then None
    else if negative then Some(-value)
    else Some(value)
  }

  /** parseInt yields a number exactly when a digit follows the white space and the optional sign. */
  lemma ParseIntDefined(s: string)
    ensures ParseInt(s).Some? <==>
      var t := TrimStart(s);
      (t != [] && IsDigit(t[0]))
      || (|t| >= 2 && (t[0] == '-' || t[0] == '+') && IsDigit(t[1]))
  {
  }

  /** `t` occurs in `s` starting at offset `k`. */
  predicate OccursAt(s: string, t: string, k: int)
  {
    0 <= k <= |s| - |t| && s[k..k + |t|] == t
  }

  /** String.prototype.includes: `t` occurs in `s` at some offset. */
  predicate Includes(s: string, t: string)
  {
    exists k :: 0 <= k <= |s| - |t| && OccursAt(s, t, k)
  }

  /** The pincode pattern /^\d{6}$/. */
  predicate IsSixDigits(s: string)
  {
    |s| == 6 && AllDigits(s)
  }

  /** parseInt reads a six-digit pincode as its decimal value, which lies in [0, 999999]. */
  lemma SixDigitsParse(s: string)
    requires IsSixDigits(s)
    ensures ParseInt(s) == Some(DigitsValue(s))
    ensures DigitsValue(s) <= 999999
  {
    DigitsParse(s);
    DigitsValueBound(s);
    assert Pow10(6) == 1000000;
  }

  /** A non-empty run of digits parses as its decimal value. */
  lemma DigitsParse(s: string)
    requires s != [] && AllDigits(s)
    ensures ParseInt(s) == Some(DigitsValue(s))
  {
    assert !IsWhitespace(s[0]) && s[0] != '-' && s[0] != '+';
    assert TrimStart(s) == s;
    DigitsPrefix(s);
  }

  lemma {:induction false} DigitsPrefix(s: string)
    requires AllDigits(s)
    ensures LeadingDigits(s) == s
  {
    if s != [] {
      DigitsPrefix(s[1..]);
    }
  }
}

/**
 * String primitives the page code relies on: `toLowerCase`, `includes`,
 * the decimal rendering of a loop counter inside a template literal, and
 * `parseInt` of a header value.
 */
module Text {
  import opened Common

  /** ASCII part of String.prototype.toLowerCase on one character. */
  function LowerChar(c: char): char
  {
    if 'A' <= c <= 'Z' then (c as int + 32) as char else c
  }

  predicate IsUpper(c: char)
  {
    'A' <= c <= 'Z'
  }

  /** `s.toLowerCase()` (ASCII letters only). */
  function Lower(s: string): (r: string)
    ensures |r| == |s|
    ensures forall i :: 0 <= i < |s| ==> r[i] == LowerChar(s[i])
  {
    seq(|s|, i requires 0 <= i < |s| => LowerChar(s[i]))
  }

  /** Lower-casing never leaves an upper-case letter behind. */
  lemma LowerHasNoUpper(s: string, i: nat)
    requires i < |s|
    ensures !IsUpper(Lower(s)[i])
  {
  }

  /** Lower-casing twice is lower-casing once. */
  lemma LowerIdempotent(s: string)
    ensures Lower(Lower(s)) == Lower(s)
  {
  }

  lemma LowerConcat(a: string, b: string)
    ensures Lower(a + b) == Lower(a) + Lower(b)
  {
  }

  /** `sub` occurs in `s` starting at index `i`. */
  predicate OccursAt(s: string, sub: string, i: int)
  {
    0 <= i && i + |sub| <= |s| && s[i..i + |sub|] == sub
  }

  /** `s.includes(sub)`: a substring test, anywhere in `s`. */
  function Contains(s: string, sub: string): bool
    decreases |s|
  {
    |sub| <= |s| && (s[..|sub|] == sub || Contains(s[1..], sub))
  }

  /** The recursive test agrees with the positional definition of a substring. */
  lemma {:induction false} ContainsIff(s: string, sub: string)
    ensures Contains(s, sub) <==> exists i :: OccursAt(s, sub, i)
    decreases |s|
  {
    if |sub| > |s| {
      assert forall i :: !OccursAt(s, sub, i);
    } else if s[..|sub|] == sub {
      assert OccursAt(s, sub, 0);
    } else {
      ContainsIff(s[1..], sub);
      if Contains(s[1..], sub) {
        var i :| OccursAt(s[1..], sub, i);
        assert OccursAt(s, sub, i + 1);
      }
      if exists i :: OccursAt(s, sub, i) {
        var i :| OccursAt(s, sub, i);
        assert i != 0;
        assert OccursAt(s[1..], sub, i - 1);
      }
    }
  }

  /** The test is about position anywhere, not a suffix: whatever surrounds `sub`, it is found. */
  lemma ContainsInside(a: string, sub: string, b: string)
    ensures Contains(a + sub + b, sub)
  {
    assert OccursAt(a + sub + b, sub, |a|);
    ContainsIff(a + sub + b, sub);
  }

  /** A lower-cased string never contains a pattern that has an upper-case letter in it. */
  lemma {:induction false} LowerMissesUpperPattern(s: string, sub: string, j: nat)
    requires j < |sub| && IsUpper(sub[j])
    ensures !Contains(Lower(s), sub)
  {
    ContainsIff(Lower(s), sub);
    if exists i :: OccursAt(Lower(s), sub, i) {
      var i :| OccursAt(Lower(s), sub, i);
      assert Lower(s)[i + j] == sub[j];
      LowerHasNoUpper(s, i + j);
    }
  }

  /** An occurrence in `a + b` whose first character is absent from `a` starts inside `b`. */
  lemma OccursInSuffix(a: string, b: string, sub: string, i: int)
    requires |sub| > 0 && sub[0] !in a && OccursAt(a + b, sub, i)
    ensures OccursAt(b, sub, i - |a|)
  {
    assert (a + b)[i] == sub[0] by {
      assert (a + b)[i..i + |sub|][0] == (a + b)[i];
    }
    forall j | 0 <= j < |a|
      ensures (a + b)[j] in a
    {
      assert (a + b)[j] == a[j];
    }
    assert (a + b)[i..i + |sub|] == b[i - |a|..i - |a| + |sub|];
  }

  /** An occurrence in `b` is one in `a + b`, shifted by `|a|`. */
  lemma OccursShifted(a: string, b: string, sub: string, i: int)
    requires OccursAt(b, sub, i)
    ensures OccursAt(a + b, sub, i + |a|)
  {
    assert (a + b)[i + |a|..i + |a| + |sub|] == b[i..i + |sub|];
  }

  /** If the first character of `sub` never occurs in `a`, an occurrence in `a + b` lies in `b`. */
  lemma {:induction false} ContainsSkipsPrefix(a: string, b: string, sub: string)
    requires |sub| > 0 && sub[0] !in a
    ensures Contains(a + b, sub) <==> Contains(b, sub)
  {
    ContainsIff(a + b, sub);
    ContainsIff(b, sub);
    if Contains(a + b, sub) {
      var i :| OccursAt(a + b, sub, i);
      OccursInSuffix(a, b, sub, i);
    }
    if Contains(b, sub) {
      var i :| OccursAt(b, sub, i);
      OccursShifted(a, b, sub, i);
    }
  }

  /** `exts.some(ext => s.includes(ext))`. */
  function ContainsAny(s: string, exts: seq<string>): (r: bool)
    ensures r <==> exists k :: 0 <= k < |exts| && Contains(s, exts[k])
  {
    if exts == [] then false
    else Contains(s, exts[0]) || ContainsAny(s, exts[1..])
  }

  // ----- decimal numbers -----

  predicate IsDigit(c: char)
  {
    '0' <= c <= '9'
  }

  function DigitChar(d: nat): (c: char)
    requires d < 10
    ensures IsDigit(c)
  {
    ('0' as int + d) as char
  }

  function DigitValue(c: char): nat
    requires IsDigit(c)
  {
    c as int - '0' as int
  }

  /** The text of a non-negative integer inside a template literal (`${i}`). */
  function DecimalText(n: nat): (r: string)
    ensures |r| > 0
    ensures forall k :: 0 <= k < |r| ==> IsDigit(r[k])
  {
    if n < 10 then [DigitChar(n)] else DecimalText(n / 10) + [DigitChar(n % 10)]
  }

  /** The value of a run of decimal digits, most significant first. */
  function DigitsValue(ds: string): nat
    requires forall k :: 0 <= k < |ds| ==> IsDigit(ds[k])
  {
    if ds == [] then 0
    else DigitsValue(ds[..|ds| - 1]) * 10 + DigitValue(ds[|ds| - 1])
  }

  /** The longest prefix of `s` made of decimal digits. */
  function LeadingDigits(s: string): (r: string)
    ensures |r| <= |s| && r == s[..|r|]
    ensures forall k :: 0 <= k < |r| ==> IsDigit(r[k])
    ensures |r| < |s| ==> !IsDigit(s[|r|])
  {
    if s != [] && IsDigit(s[0]) then [s[0]] + LeadingDigits(s[1..]) else []
  }

  /** The white space `parseInt` skips before the number (ASCII part). */
  predicate IsSpace(c: char)
  {
    c == ' ' || c == '\t' || c == '\n' || c == '\r' || c == '\U{B}' || c == '\U{C}'
  }

  function TrimStart(s: string): (r: string)
    ensures |r| <= |s| && r == s[|s| - |r|..]
    ensures r != [] ==> !IsSpace(r[0])
    ensures forall k :: 0 <= k < |s| - |r| ==> IsSpace(s[k])
  {
    if s != [] && IsSpace(s[0]) then TrimStart(s[1..]) else s
  }

  /**
   * `parseInt(s)` with no radix, for decimal text: leading white space is
   * skipped, one optional sign is read, then the longest run of digits; no
   * digits at all is NaN, here `None`.
   */
  function ParseInt(s: string): (r: Option<int>)
  {
    var t := TrimStart(s);
    var negative := t != [] && t[0] == '-';
    var body := if t != [] && (t[0] == '-' || t[0] == '+') then t[1..] else t;
    var ds := LeadingDigits(body);
    if ds == [] then None
    else if negative then Some(-(DigitsValue(ds) as int))
    else Some(DigitsValue(ds))
  }

  lemma {:induction false} DigitsValueOfDecimalText(n: nat)
    ensures DigitsValue(DecimalText(n)) == n
  {
    var r := DecimalText(n);
    if n >= 10 {
      DigitsValueOfDecimalText(n / 10);
      assert r[..|r| - 1] == DecimalText(n / 10);
    }
  }

  lemma {:induction false} LeadingDigitsOfDigits(s: string)
    requires forall k :: 0 <= k < |s| ==> IsDigit(s[k])
    ensures LeadingDigits(s) == s
  {
    if s != [] {
      LeadingDigitsOfDigits(s[1..]);
    }
  }

  /** `parseInt` reads back the decimal text of every non-negative integer. */
  lemma ParseIntDecimalText(n: nat)
    ensures ParseInt(DecimalText(n)) == Some(n)
  {
    var r := DecimalText(n);
    assert IsDigit(r[0]) && !IsSpace(r[0]);
    assert TrimStart(r) == r;
    assert r[0] != '-' && r[0] != '+';
    LeadingDigitsOfDigits(r);
    assert LeadingDigits(r) == r;
    DigitsValueOfDecimalText(n);
  }
}

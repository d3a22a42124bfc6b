/**
 * String operations the application relies on, over ASCII text:
 * `String.prototype.trim`, `toLowerCase`, `includes`, `startsWith`,
 * `parseInt(s)` (radix 10) and `Number.prototype.toString()` on integers.
 */
module Text {
  import opened Common

  // ---------------------------------------------------------------------
  // Whitespace and trimming
  // ---------------------------------------------------------------------

  /** The ASCII characters that `trim` removes: space, tab, line feed,
      vertical tab, form feed and carriage return. */
  predicate IsSpace(c: char) {
    c == ' ' || ('\t' <= c <= '\r')
  }

  /** Every character is whitespace (the empty string included). */
  predicate IsBlank(s: string) {
    forall i :: 0 <= i < |s| ==> IsSpace(s[i])
  }

  /** Neither the first nor the last character is whitespace. */
  predicate Trimmed(s: string) {
    s == [] || (!IsSpace(s[0]) && !IsSpace(s[|s| - 1]))
  }

  /** `s` without its leading whitespace: the suffix that starts at the first
      non-space character. */
  function TrimStart(s: string): (r: string)
    ensures |r| <= |s| && r == s[|s| - |r|..]
    ensures r == [] || !IsSpace(r[0])
    ensures IsBlank(s[..|s| - |r|])
    ensures r == [] <==> IsBlank(s)
  {
    if s != [] && IsSpace(s[0]) then
      var r := TrimStart(s[1..]);
      assert r == s[|s| - |r|..] && IsBlank(s[..|s| - |r|]) && (r == [] <==> IsBlank(s)) by {
        var k := |s| - |r|;
        assert s[1..][k - 1..] == s[k..];
        forall i | 0 <= i < k
          ensures IsSpace(s[..k][i])
        {
          if i > 0 {
            assert s[..k][i] == s[1..][..k - 1][i - 1];
          }
        }
        assert IsBlank(s) <==> IsBlank(s[1..]) by {
          assert forall i :: 0 < i < |s| ==> s[i] == s[1..][i - 1];
        }
      }
      r
    else s
  }

  /** `s` without its trailing whitespace. */
  function TrimEnd(s: string): (r: string)
    ensures |r| <= |s| && r == s[..|r|]
    ensures r == [] || !IsSpace(r[|r| - 1])
    ensures r == [] <==> IsBlank(s)
  {
    if s != [] && IsSpace(s[|s| - 1]) then
      var r := TrimEnd(s[..|s| - 1]);
      assert IsBlank(s) <==> IsBlank(s[..|s| - 1]);
      r
    else s
  }

  /** `String.prototype.trim`. */
  function Trim(s: string): (r: string)
    ensures Trimmed(r) && |r| <= |s|
    ensures r == [] <==> IsBlank(s)
    ensures Trimmed(s) ==> r == s
  {
    TrimEnd(TrimStart(s))
  }

  /** What trimming keeps: the part of `s` between a blank prefix and a
      blank suffix. */
  lemma TrimContent(s: string)
    ensures var r := Trim(s);
      exists k :: 0 <= k <= |s| - |r| && IsBlank(s[..k]) && r == s[k..k + |r|] && IsBlank(s[k + |r|..])
  {
    var t := TrimStart(s);
    TrimEndRemovesBlank(t);
    BlankFrame(s, t, TrimEnd(t));
  }

  /** A blank prefix cut off, then a blank suffix: what is left sits between
      the two in the original. */
  lemma BlankFrame(s: string, t: string, r: string)
    requires |r| <= |t| <= |s| && t == s[|s| - |t|..] && IsBlank(s[..|s| - |t|])
    requires r == t[..|r|] && IsBlank(t[|r|..])
    ensures exists k :: 0 <= k <= |s| - |r| && IsBlank(s[..k]) && r == s[k..k + |r|] && IsBlank(s[k + |r|..])
  {
    var k := |s| - |t|;
    assert s[k..k + |r|] == t[..|r|] && s[k + |r|..] == t[|r|..];
  }

  /** What `TrimEnd` removes is blank. */
  lemma {:induction false} TrimEndRemovesBlank(s: string)
    ensures IsBlank(s[|TrimEnd(s)|..])
    decreases |s|
  {
    if s != [] && IsSpace(s[|s| - 1]) {
      var init := s[..|s| - 1];
      TrimEndRemovesBlank(init);
      var n := |TrimEnd(init)|;
      assert s[n..] == init[n..] + [s[|s| - 1]];
    }
  }

  /** Trimming twice is trimming once. */
  lemma TrimIdempotent(s: string)
    ensures Trim(Trim(s)) == Trim(s)
  {
  }

  // ---------------------------------------------------------------------
  // Case folding
  // ---------------------------------------------------------------------

  function LowerChar(c: char): (d: char)
    ensures !('A' <= d <= 'Z')
  {
    if 'A' <= c <= 'Z' then (c as int - 'A' as int + 'a' as int) as char else c
  }

  /** `String.prototype.toLowerCase`, over ASCII letters. */
  function Lower(s: string): (r: string)
    ensures |r| == |s|
    ensures forall i :: 0 <= i < |s| ==> r[i] == LowerChar(s[i])
  {
    if s == [] then [] else [LowerChar(s[0])] + Lower(s[1..])
  }

  lemma LowerKeepsSpace(c: char)
    ensures IsSpace(LowerChar(c)) <==> IsSpace(c)
  {
  }

  lemma LowerTrimmed(s: string)
    requires Trimmed(s)
    ensures Trimmed(Lower(s))
  {
    if s != [] {
      LowerKeepsSpace(s[0]);
      LowerKeepsSpace(s[|s| - 1]);
    }
  }

  lemma LowerTail(s: string)
    requires s != []
    ensures Lower(s)[1..] == Lower(s[1..])
  {
  }

  lemma LowerInit(s: string)
    requires s != []
    ensures Lower(s)[..|s| - 1] == Lower(s[..|s| - 1])
  {
  }

  lemma {:induction false} TrimStartLower(s: string)
    ensures TrimStart(Lower(s)) == Lower(TrimStart(s))
  {
    if s != [] {
      LowerKeepsSpace(s[0]);
      if IsSpace(s[0]) {
        LowerTail(s);
        TrimStartLower(s[1..]);
      }
    }
  }

  lemma {:induction false} TrimEndLower(s: string)
    ensures TrimEnd(Lower(s)) == Lower(TrimEnd(s))
  {
    if s != [] {
      LowerKeepsSpace(s[|s| - 1]);
      if IsSpace(s[|s| - 1]) {
        LowerInit(s);
        TrimEndLower(s[..|s| - 1]);
      }
    }
  }

  /** Lower-casing twice is lower-casing once. */
  lemma {:induction false} LowerIdempotent(s: string)
    ensures Lower(Lower(s)) == Lower(s)
  {
    if s != [] {
      LowerTail(s);
      LowerTail(Lower(s));
      LowerIdempotent(s[1..]);
    }
  }

  // ---------------------------------------------------------------------
  // Substrings
  // ---------------------------------------------------------------------

  /** `s.includes(t)`: `t` occurs in `s` as a contiguous run, tried at each
      starting position in turn. */
  predicate Contains(s: string, t: string)
    decreases |s|
  {
    t <= s || (s != [] && Contains(s[1..], t))
  }

  /** `t` sits in `s` at offset `i`. */
  predicate OccursAt(s: string, t: string, i: int) {
    0 <= i <= |s| - |t| && s[i..i + |t|] == t
  }

  /** The reference meaning of `Contains`: some offset at which `t` sits in `s`. */
  lemma {:induction false} ContainsIff(s: string, t: string)
    ensures Contains(s, t) <==> exists i :: OccursAt(s, t, i)
  {
    if t <= s {
      assert OccursAt(s, t, 0);
    }
    if s == [] {
      if exists i :: OccursAt(s, t, i) {
        var i :| OccursAt(s, t, i);
        assert t == [];
      }
    } else {
      ContainsIff(s[1..], t);
      if Contains(s[1..], t) {
        var i :| OccursAt(s[1..], t, i);
        assert s[i + 1..i + 1 + |t|] == s[1..][i..i + |t|];
        assert OccursAt(s, t, i + 1);
      }
      if exists i :: OccursAt(s, t, i) {
        var i :| OccursAt(s, t, i);
        if i > 0 {
          assert s[1..][i - 1..i - 1 + |t|] == s[i..i + |t|];
          assert OccursAt(s[1..], t, i - 1);
        } else {
          assert t <= s;
        }
      }
    }
  }

  /** A string longer than `s` never occurs in `s`. */
  lemma {:induction false} ContainsNotLonger(s: string, t: string)
    requires |t| > |s|
    ensures !Contains(s, t)
  {
    if s != [] {
      ContainsNotLonger(s[1..], t);
    }
  }

  /** `s.toLowerCase().includes(t.toLowerCase())`. */
  predicate ContainsIgnoreCase(s: string, t: string) {
    Contains(Lower(s), Lower(t))
  }

  // ---------------------------------------------------------------------
  // Decimal integers
  // ---------------------------------------------------------------------

  predicate IsDigit(c: char) {
    '0' <= c <= '9'
  }

  predicate AllDigits(s: string) {
    forall i :: 0 <= i < |s| ==> IsDigit(s[i])
  }

  function DigitChar(d: nat): (c: char)
    requires d < 10
    ensures IsDigit(c)
  {
    ('0' as int + d) as char
  }

  function DigitValue(c: char): (d: nat)
    requires IsDigit(c)
    ensures d < 10 && DigitChar(d) == c
  {
    c as int - '0' as int
  }

  /** Length of the longest prefix of `s` made of decimal digits. */
  function DigitPrefixLength(s: string): (n: nat)
    ensures n <= |s| && AllDigits(s[..n])
    ensures n < |s| ==> !IsDigit(s[n])
  {
    if s != [] && IsDigit(s[0]) then
      var n := 1 + DigitPrefixLength(s[1..]);
      assert s[..n] == [s[0]] + s[1..][..n - 1];
      n
    else 0
  }

  /** The number a string of decimal digits denotes (most significant first). */
  function DecimalValue(s: string): nat
    requires AllDigits(s)
  {
    if s == [] then 0 else DecimalValue(s[..|s| - 1]) * 10 + DigitValue(s[|s| - 1])
  }

  /** `parseInt(s)` with radix 10: leading whitespace is skipped, one sign is
      read, then the longest run of digits; no digit at all gives `NaN`,
      modelled as `None`. */
  function ParseInt(s: string): Option<int>
    decreases |s|
  {
    if s != [] && IsSpace(s[0]) then ParseInt(s[1..]) else ParseSignedDigits(s)
  }

  /** The reference meaning of `ParseInt`: the signed digit run of `s` once
      its leading whitespace is trimmed. */
  lemma {:induction false} ParseIntTrimStart(s: string)
    ensures ParseInt(s) == ParseSignedDigits(TrimStart(s))
    decreases |s|
  {
    if s != [] && IsSpace(s[0]) {
      ParseIntTrimStart(s[1..]);
    }
  }

  /** The optionally signed digit run at the start of `t`. */
  function ParseSignedDigits(t: string): (r: Option<int>)
    ensures r.None? <==> DigitPrefixLength(SignedBody(t)) == 0
  {
    var body := SignedBody(t);
    var n := DigitPrefixLength(body);
    if n == 0 then None
    else if t[0] == '-' then Some(-(DecimalValue(body[..n]) as int))
    else Some(DecimalValue(body[..n]))
  }

  /** What follows an optional leading sign. */
  function SignedBody(t: string): (b: string)
    ensures b == t || (t != [] && (t[0] == '-' || t[0] == '+') && b == t[1..])
  {
    if t != [] && (t[0] == '-' || t[0] == '+') then t[1..] else t
  }

  /** `n.toString()` for a natural number: decimal, without leading zeros. */
  function NatToString(n: nat): (r: string)
    ensures |r| > 0 && AllDigits(r)
    ensures DecimalValue(r) == n
  {
    if n < 10 then
      var r := [DigitChar(n)];
      assert r[..|r| - 1] == [];
      r
    else
      var r := NatToString(n / 10) + [DigitChar(n % 10)];
      assert r[..|r| - 1] == NatToString(n / 10);
      r
  }

  /** `i.toString()` for an integer: a minus sign before a negative number. */
  function IntToString(i: int): (r: string)
    ensures |r| > 0
  {
    if i < 0 then "-" + NatToString(-i) else NatToString(i)
  }

  /** `parseInt(i.toString())` gives back `i`. */
  lemma ParseIntOfIntToString(i: int)
    ensures ParseInt(IntToString(i)) == Some(i)
  {
    var n: nat := if i < 0 then -i else i;
    var digits := NatToString(n);
    AllDigitsPrefixLength(digits);
    if i < 0 {
      ParseNegative(digits, ['-'] + digits, i);
      assert IntToString(i) == ['-'] + digits;
    } else {
      ParseNatural(digits, n);
    }
  }

  /** `parseInt` of a run of digits. */
  lemma ParseNatural(digits: string, n: int)
    requires |digits| > 0 && AllDigits(digits) && DigitPrefixLength(digits) == |digits|
    requires n == DecimalValue(digits)
    ensures ParseInt(digits) == Some(n)
  {
    assert digits[0] != '-' && !IsSpace(digits[0]) by {
      assert IsDigit(digits[0]);
    }
    SignedDigitRun(digits, digits, n);
  }

  /** `parseInt` of a minus sign followed by a run of digits. */
  lemma ParseNegative(digits: string, s: string, v: int)
    requires |digits| > 0 && AllDigits(digits) && DigitPrefixLength(digits) == |digits|
    requires s == ['-'] + digits
    requires v == -(DecimalValue(digits) as int)
    ensures ParseInt(s) == Some(v)
  {
    assert s[0] == '-' && s[1..] == digits;
    SignedDigitRun(s, digits, v);
  }

  /** The sign and digit run of `t`, when the digits fill the rest of it. */
  lemma SignedDigitRun(t: string, digits: string, v: int)
    requires |digits| > 0 && AllDigits(digits) && DigitPrefixLength(digits) == |digits|
    requires t == digits || (t != [] && t[0] == '-' && t[1..] == digits)
    requires v == if t[0] == '-' then -(DecimalValue(digits) as int) else DecimalValue(digits)
    ensures ParseSignedDigits(t) == Some(v)
  {
    assert SignedBody(t) == digits by {
      if t == digits {
        assert IsDigit(t[0]);
      }
    }
    assert digits[..|digits|] == digits;
  }

  lemma {:induction false} AllDigitsPrefixLength(s: string)
    requires AllDigits(s)
    ensures DigitPrefixLength(s) == |s|
  {
    if s != [] {
      AllDigitsPrefixLength(s[1..]);
    }
  }
  /** The smallest magnitude JavaScript writes in exponent notation. */
  const ExponentThreshold: nat := 1_000_000_000_000_000_000_000

  /** The first decimal digit of `n`. */
  function LeadingDigit(n: nat): (d: nat)
    ensures d < 10 && (n > 0 ==> d > 0)
  {
    if n < 10 then n else LeadingDigit(n / 10)
  }

  /** `LeadingDigit` is the first character of the decimal form. */
  lemma {:induction false} LeadingDigitIsFirst(n: nat)
    ensures NatToString(n)[0] == DigitChar(LeadingDigit(n))
  {
    if n >= 10 {
      LeadingDigitIsFirst(n / 10);
    }
  }

  /** `String(x)` for an integer-valued number: the decimal form below
      `ExponentThreshold`, and from there on exponent notation, the leading
      digit followed by `e+` and the exponent (the fraction digits the
      notation puts after the leading one are not modelled). */
  function NumberToString(i: int): (r: string)
    ensures -(ExponentThreshold as int) < i < ExponentThreshold ==> r == IntToString(i)
  {
    var n: nat := if i < 0 then -i else i;
    if n < ExponentThreshold then IntToString(i)
    else (if i < 0 then "-" else "") + ExponentDigits(n)
  }

  /** The leading digit of `n`, `e+` and the exponent. */
  function ExponentDigits(n: nat): (r: string)
    ensures |r| > 2 && r[0] == DigitChar(LeadingDigit(n)) && r[1] == 'e'
  {
    [DigitChar(LeadingDigit(n))] + "e+" + NatToString(|NatToString(n)| - 1)
  }

  /** `parseInt(String(i))`: `i` itself below `ExponentThreshold`, only
      the signed leading digit from there on. */
  lemma ParseIntOfNumberToString(i: int)
    ensures var n: nat := if i < 0 then -i else i;
      ParseInt(NumberToString(i)) ==
        if n < ExponentThreshold then Some(i)
        else if i < 0 then Some(-(LeadingDigit(n) as int)) else Some(LeadingDigit(n))
  {
    var n: nat := if i < 0 then -i else i;
    if n < ExponentThreshold {
      ParseIntOfIntToString(i);
    } else {
      ParseIntOfExponentForm(i, n);
    }
  }

  lemma ParseIntOfExponentForm(i: int, n: nat)
    requires n == (if i < 0 then -i else i) && n >= ExponentThreshold
    ensures ParseInt(NumberToString(i)) ==
      if i < 0 then Some(-(LeadingDigit(n) as int)) else Some(LeadingDigit(n))
  {
    var e := ExponentDigits(n);
    assert NumberToString(i) == (if i < 0 then "-" else "") + e;
    assert DigitValue(e[0]) == LeadingDigit(n);
    ParseDigitBeforeText(e, i < 0);
  }

  /** `parseInt` of one digit, possibly signed, followed by a non-digit. */
  lemma ParseDigitBeforeText(e: string, negative: bool)
    requires |e| > 1 && IsDigit(e[0]) && !IsDigit(e[1])
    ensures ParseInt((if negative then "-" else "") + e) ==
      if negative then Some(-(DigitValue(e[0]) as int)) else Some(DigitValue(e[0]))
  {
    assert DigitPrefixLength(e) == 1 by {
      assert e[1..][0] == e[1];
    }
    assert DecimalValue(e[..1]) == DigitValue(e[0]) by {
      assert e[..1][..0] == [];
    }
    var t := (if negative then "-" else "") + e;
    assert !IsSpace(t[0]);
    if negative {
      assert t[1..] == e;
    } else {
      assert t == e;
    }
  }
}

/**
  The string primitives the game relies on: `String.prototype.trim`, the
  regular-expression classes `\s` and `\w`, `String.prototype.toLowerCase`
  (ASCII letters only) and the decimal rendering of a count in a template
  literal.
 */
module Text {

  /** JavaScript's WhiteSpace and LineTerminator code points: the set that both
      `trim` removes and the regular-expression class `\s` matches. */
  predicate IsSpace(c: char) {
    c == '\t' || c == '\n' || c == '\U{B}' || c == '\U{C}' || c == '\r' || c == ' ' ||
    c == '\U{A0}' || c == '\U{1680}' || ('\U{2000}' <= c <= '\U{200A}') ||
    c == '\U{2028}' || c == '\U{2029}' || c == '\U{202F}' || c == '\U{205F}' ||
    c == '\U{3000}' || c == '\U{FEFF}'
  }

  /** The regular-expression class `\w` (without the `u` flag): ASCII letters, digits and `_`. */
  predicate IsWordChar(c: char) {
    ('a' <= c <= 'z') || ('A' <= c <= 'Z') || ('0' <= c <= '9') || c == '_'
  }

  predicate IsDigit(c: char) {
    '0' <= c <= '9'
  }

  /** `toLowerCase` on one character; only the ASCII capitals are mapped. */
  function LowerChar(c: char): char {
    if 'A' <= c <= 'Z' then ((c as int) + 32) as char else c
  }

  function Lower(s: string): string {
    seq(|s|, i requires 0 <= i < |s| => LowerChar(s[i]))
  }

  /** How many whitespace characters `s` starts with. */
  function LeadingSpaceCount(s: string): (n: nat)
    ensures n <= |s|
    ensures n < |s| ==> !IsSpace(s[n])
  {
    if s != [] && IsSpace(s[0]) then 1 + LeadingSpaceCount(s[1..]) else 0
  }

  /** Where the trailing whitespace of `s` begins. */
  function TrailingSpaceStart(s: string): (n: nat)
    ensures n <= |s|
    ensures n > 0 ==> !IsSpace(s[n - 1])
  {
    if s != [] && IsSpace(s[|s| - 1]) then TrailingSpaceStart(s[..|s| - 1]) else |s|
  }

  lemma {:induction false} LeadingSpacesAreSpace(s: string)
    ensures forall i :: 0 <= i < LeadingSpaceCount(s) ==> IsSpace(s[i])
    decreases |s|
  {
    if s != [] && IsSpace(s[0]) {
      LeadingSpacesAreSpace(s[1..]);
      forall i | 1 <= i < LeadingSpaceCount(s) ensures IsSpace(s[i]) {
        assert s[1..][i - 1] == s[i];
      }
    }
  }

  lemma {:induction false} TrailingSpacesAreSpace(s: string)
    ensures forall i :: TrailingSpaceStart(s) <= i < |s| ==> IsSpace(s[i])
    decreases |s|
  {
    if s != [] && IsSpace(s[|s| - 1]) {
      TrailingSpacesAreSpace(s[..|s| - 1]);
      forall i | TrailingSpaceStart(s) <= i < |s| - 1 ensures IsSpace(s[i]) {
        assert s[..|s| - 1][i] == s[i];
      }
    }
  }

  /** Where the trimmed text ends inside `s`. */
  function TrimEndIndex(s: string): (n: nat)
    ensures LeadingSpaceCount(s) <= n <= |s|
  {
    LeadingSpaceCount(s) + TrailingSpaceStart(s[LeadingSpaceCount(s)..])
  }

  /** `String.prototype.trim`: the slice of `s` between its leading and its
      trailing whitespace (TrimRemovesOnlySpace: every character cut off is
      whitespace); the result neither starts nor ends with whitespace. */
  function Trim(s: string): (r: string)
    ensures r == s[LeadingSpaceCount(s)..TrimEndIndex(s)]
    ensures r != [] ==> !IsSpace(r[0]) && !IsSpace(r[|r| - 1])
  {
    var t := s[LeadingSpaceCount(s)..];
    t[..TrailingSpaceStart(t)]
  }

  /** Everything `trim` cuts off, on either side, is whitespace. */
  lemma TrimRemovesOnlySpace(s: string)
    ensures forall i :: 0 <= i < LeadingSpaceCount(s) ==> IsSpace(s[i])
    ensures forall i :: TrimEndIndex(s) <= i < |s| ==> IsSpace(s[i])
  {
    LeadingSpacesAreSpace(s);
    TrailingSpacesAfter(s, LeadingSpaceCount(s));
  }

  /** The trailing whitespace of a suffix `s[o..]` is whitespace of `s`. */
  lemma TrailingSpacesAfter(s: string, o: nat)
    requires o <= |s|
    ensures forall i :: o + TrailingSpaceStart(s[o..]) <= i < |s| ==> IsSpace(s[i])
  {
    var t := s[o..];
    TrailingSpacesAreSpace(t);
    forall i | o + TrailingSpaceStart(t) <= i < |s| ensures IsSpace(s[i]) {
      assert t[i - o] == s[i];
    }
  }

  /** A string with no whitespace at either end is its own trim. */
  lemma TrimOfTrimmed(s: string)
    requires s != [] ==> !IsSpace(s[0]) && !IsSpace(s[|s| - 1])
    ensures Trim(s) == s
  {
  }

  lemma TrimIdempotent(s: string)
    ensures Trim(Trim(s)) == Trim(s)
  {
    TrimOfTrimmed(Trim(s));
  }

  /** Lower-casing never turns a space into a non-space or back. */
  lemma LowerCharKeepsSpace(c: char)
    ensures IsSpace(LowerChar(c)) <==> IsSpace(c)
  {
  }

  lemma {:induction false} LowerLeadingSpaces(s: string)
    ensures LeadingSpaceCount(Lower(s)) == LeadingSpaceCount(s)
    decreases |s|
  {
    if s != [] {
      LowerCharKeepsSpace(s[0]);
      assert Lower(s)[0] == LowerChar(s[0]);
      if IsSpace(s[0]) {
        assert Lower(s)[1..] == Lower(s[1..]);
        LowerLeadingSpaces(s[1..]);
      }
    }
  }

  lemma {:induction false} LowerTrailingSpaces(s: string)
    ensures TrailingSpaceStart(Lower(s)) == TrailingSpaceStart(s)
    decreases |s|
  {
    if s != [] {
      var n := |s| - 1;
      LowerCharKeepsSpace(s[n]);
      assert Lower(s)[n] == LowerChar(s[n]);
      if IsSpace(s[n]) {
        assert Lower(s)[..n] == Lower(s[..n]);
        LowerTrailingSpaces(s[..n]);
      }
    }
  }

  /** Trimming and lower-casing commute, so `trim().toLowerCase()` and
      `toLowerCase().trim()` agree. */
  lemma LowerTrimCommute(s: string)
    ensures Lower(Trim(s)) == Trim(Lower(s))
  {
    var o := LeadingSpaceCount(s);
    LowerLeadingSpaces(s);
    assert Lower(s)[o..] == Lower(s[o..]);
    LowerTrailingSpaces(s[o..]);
  }

  /** Case-insensitive equality stated character by character. */
  predicate EqualIgnoringCase(a: string, b: string) {
    |a| == |b| && forall i :: 0 <= i < |a| ==> LowerChar(a[i]) == LowerChar(b[i])
  }

  /** Comparing `toLowerCase()` of both sides is exactly case-insensitive
      equality, in both directions. */
  lemma LowerEqualIff(a: string, b: string)
    ensures Lower(a) == Lower(b) <==> EqualIgnoringCase(a, b)
  {
    if Lower(a) == Lower(b) {
      assert |a| == |Lower(a)|;
      forall i | 0 <= i < |a| ensures LowerChar(a[i]) == LowerChar(b[i]) {
        assert Lower(a)[i] == Lower(b)[i];
      }
    }
  }

  function DigitChar(d: nat): (c: char)
    requires d < 10
    ensures IsDigit(c)
  {
    (('0' as int) + d) as char
  }

  function DigitValue(c: char): nat
    requires IsDigit(c)
  {
    (c as int) - ('0' as int)
  }

  predicate AllDigits(s: string) {
    forall i :: 0 <= i < |s| ==> IsDigit(s[i])
  }

  /** The decimal numeral of `n`, as a template literal renders a
      non-negative integer: never empty and made of digits only
      (NatToDecimalCanonical: no leading zero). */
  function NatToDecimal(n: nat): (r: string)
    ensures r != [] && AllDigits(r)
    decreases n
  {
    if n < 10 then [DigitChar(n)] else NatToDecimal(n / 10) + [DigitChar(n % 10)]
  }

  /** The value of a numeral, read most significant digit first. */
  function DecimalValue(s: string): nat
    requires AllDigits(s)
    decreases |s|
  {
    if s == [] then 0 else DecimalValue(s[..|s| - 1]) * 10 + DigitValue(s[|s| - 1])
  }

  lemma {:induction false} DecimalRoundTrip(n: nat)
    ensures DecimalValue(NatToDecimal(n)) == n
    decreases n
  {
    if n >= 10 {
      var s := NatToDecimal(n);
      assert s[..|s| - 1] == NatToDecimal(n / 10);
      DecimalRoundTrip(n / 10);
    }
  }

  /** The numeral is canonical: it opens with `0` only for zero itself. */
  lemma {:induction false} NatToDecimalCanonical(n: nat)
    ensures NatToDecimal(n)[0] == '0' <==> n == 0
    decreases n
  {
    if n >= 10 {
      NatToDecimalCanonical(n / 10);
      assert NatToDecimal(n)[0] == NatToDecimal(n / 10)[0];
    }
  }

  lemma NatToDecimalInjective(n: nat, m: nat)
    requires NatToDecimal(n) == NatToDecimal(m)
    ensures n == m
  {
    DecimalRoundTrip(n);
    DecimalRoundTrip(m);
  }

  /** A run of digits followed by a non-digit can be split in only one way. */
  lemma DigitsPrefixUnique(a: string, x: string, b: string, y: string)
    requires AllDigits(a) && AllDigits(b)
    requires x != [] && !IsDigit(x[0]) && y != [] && !IsDigit(y[0])
    requires a + x == b + y
    ensures a == b && x == y
  {
    assert a == (a + x)[..|a|];
    assert b == (b + y)[..|b|];
    assert x == (a + x)[|a|..];
    assert y == (b + y)[|b|..];
  }
}

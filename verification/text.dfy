/** The few string primitives the front end relies on, restricted to ASCII:
    `String.prototype.toLowerCase`, `String.prototype.trim`, the regex class
    `\s`, JavaScript truthiness of an optional string, and the decimal
    rendering of a non-negative integer inside a template literal. */
module Text {
  import opened Results

  /** ASCII whitespace, the part of `\s` and of `trim` this model keeps. */
  predicate IsWhitespace(c: char)
  {
    c == ' ' || c == '\t' || c == '\n' || c == '\r' || c == '\U{000B}' || c == '\U{000C}'
  }

  predicate IsAsciiUpper(c: char) { 'A' <= c <= 'Z' }
  predicate IsAsciiLower(c: char) { 'a' <= c <= 'z' }
  predicate IsAsciiDigit(c: char) { '0' <= c <= '9' }

  /** A JavaScript string is truthy exactly when it is present and non-empty. */
  predicate Truthy(s: Option<string>)
  {
    s.Some? && s.value != ""
  }

  // ---------------------------------------------------------------------
  // Length

  /** UTF-16 code units a character occupies: a character outside the Basic
      Multilingual Plane is a surrogate pair, anything else one unit. */
  function CodeUnits(c: char): nat
  {
    if c as int >= 0x1_0000 then 2 else 1
  }

  /** JavaScript's `length`: UTF-16 code units, not characters. It is never
      below the character count and at most twice it; it equals the count
      when every character lies in the Basic Multilingual Plane, and twice
      the count when none does. */
  function Utf16Length(s: string): (n: nat)
    ensures |s| <= n <= 2 * |s|
    ensures (forall i :: 0 <= i < |s| ==> s[i] as int < 0x1_0000) ==> n == |s|
    ensures (forall i :: 0 <= i < |s| ==> s[i] as int >= 0x1_0000) ==> n == 2 * |s|
    ensures |s| == 1 ==> n == CodeUnits(s[0])
    decreases |s|
  {
    if |s| == 0 then 0 else Utf16Length(s[..|s| - 1]) + CodeUnits(s[|s| - 1])
  }

  /** Length adds up over concatenation, so it is the sum of the code units
      of the characters, whatever order they come in. */
  lemma {:induction false} Utf16LengthConcat(a: string, b: string)
    ensures Utf16Length(a + b) == Utf16Length(a) + Utf16Length(b)
    decreases |b|
  {
    if |b| == 0 {
      assert a + b == a;
    } else {
      var front := b[..|b| - 1];
      assert (a + b)[..|a + b| - 1] == a + front;
      assert (a + b)[|a + b| - 1] == b[|b| - 1];
      Utf16LengthConcat(a, front);
    }
  }

  // ---------------------------------------------------------------------
  // Case folding

  function ToLowerChar(c: char): (r: char)
    ensures !IsAsciiUpper(r)
    ensures IsAsciiUpper(c) ==> IsAsciiLower(r) && r as int - 'a' as int == c as int - 'A' as int
    ensures !IsAsciiUpper(c) ==> r == c
  {
    if IsAsciiUpper(c) then (c as int - 'A' as int + 'a' as int) as char else c
  }

  /** `toLowerCase` on ASCII: every letter A-Z is folded, everything else kept. */
  function ToLower(s: string): (r: string)
    ensures |r| == |s|
    ensures forall i {:trigger r[i]} :: 0 <= i < |s| ==> r[i] == ToLowerChar(s[i])
  {
    seq(|s|, i requires 0 <= i < |s| => ToLowerChar(s[i]))
  }

  /** Folding twice folds nothing more. */
  lemma ToLowerIdempotent(s: string)
    ensures ToLower(ToLower(s)) == ToLower(s)
  {
  }

  // ---------------------------------------------------------------------
  // Trimming

  /** End of the run of whitespace that starts at `k`: the first index at or
      after `k` holding a non-blank character, or `|s|`. */
  function BlankRunEnd(s: string, k: nat): (n: nat)
    requires k <= |s|
    ensures k <= n <= |s|
    ensures forall i :: k <= i < n ==> IsWhitespace(s[i])
    ensures n < |s| ==> !IsWhitespace(s[n])
    decreases |s| - k
  {
    if k < |s| && IsWhitespace(s[k]) then BlankRunEnd(s, k + 1) else k
  }

  /** Start of the run of whitespace that ends at `k`, not going below `lo`:
      one past the last index before `k` holding a non-blank character, or
      `lo`. */
  function BlankRunStart(s: string, lo: nat, k: nat): (n: nat)
    requires lo <= k <= |s|
    ensures lo <= n <= k
    ensures forall i :: n <= i < k ==> IsWhitespace(s[i])
    ensures n > lo ==> !IsWhitespace(s[n - 1])
    decreases k
  {
    if k > lo && IsWhitespace(s[k - 1]) then BlankRunStart(s, lo, k - 1) else k
  }

  /** Number of leading whitespace characters. */
  function LeadingBlanks(s: string): nat
  {
    BlankRunEnd(s, 0)
  }

  /** `trim`: the slice of `s` left after cutting the leading and the trailing
      whitespace; empty exactly for an all-blank string, and otherwise
      neither starting nor ending with whitespace. */
  function Trim(s: string): (r: string)
    ensures var a := LeadingBlanks(s);
      && a + |r| <= |s| && r == s[a..a + |r|]
      && (forall i :: 0 <= i < a ==> IsWhitespace(s[i]))
      && (forall i :: a + |r| <= i < |s| ==> IsWhitespace(s[i]))
    ensures r == [] <==> forall i :: 0 <= i < |s| ==> IsWhitespace(s[i])
    ensures r != [] ==> !IsWhitespace(r[0]) && !IsWhitespace(r[|r| - 1])
  {
    var a := BlankRunEnd(s, 0);
    var b := BlankRunStart(s, a, |s|);
    assert a < b ==> s[a..b][0] == s[a] && s[a..b][b - a - 1] == s[b - 1];
    s[a..b]
  }

  // ---------------------------------------------------------------------
  // Decimal rendering of naturals, as `${n}` produces it

  predicate AllDigits(s: string)
  {
    forall i :: 0 <= i < |s| ==> IsAsciiDigit(s[i])
  }

  function DigitChar(d: nat): (c: char)
    requires d < 10
    ensures IsAsciiDigit(c)
  {
    ('0' as int + d) as char
  }

  function DigitValue(c: char): (d: nat)
    requires IsAsciiDigit(c)
    ensures d < 10
  {
    c as int - '0' as int
  }

  /** Shortest decimal numeral for `n`: non-empty, digits only, and no
      leading zero unless it is the numeral `0` itself. */
  function NatToString(n: nat): (r: string)
    ensures |r| > 0 && AllDigits(r)
    ensures r[0] == '0' ==> r == "0"
    decreases n
  {
    if n < 10 then [DigitChar(n)] else NatToString(n / 10) + [DigitChar(n % 10)]
  }

  /** Value of a string of decimal digits, most significant first. */
  function ParseDigits(s: string): nat
    requires AllDigits(s)
    decreases |s|
  {
    if |s| == 0 then 0 else ParseDigits(s[..|s| - 1]) * 10 + DigitValue(s[|s| - 1])
  }

  /** Reading back a rendered numeral yields the number it was rendered from. */
  lemma {:induction false} ParseNatToString(n: nat)
    ensures ParseDigits(NatToString(n)) == n
    decreases n
  {
    var r := NatToString(n);
    if n < 10 {
      assert r[..0] == [];
    } else {
      var front := NatToString(n / 10);
      assert r[..|r| - 1] == front;
      ParseNatToString(n / 10);
    }
  }

  /** Different numbers render as different numerals. */
  lemma NatToStringInjective(a: nat, b: nat)
    requires NatToString(a) == NatToString(b)
    ensures a == b
  {
    ParseNatToString(a);
    ParseNatToString(b);
  }
}

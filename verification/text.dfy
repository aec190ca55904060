/** String helpers shared by the validators and the CSV import: the .NET
    notion of white space, ordinal case-insensitive suffix tests, decimal
    rendering of row numbers and `string.Join`. */
module Text {

  /** `char.IsWhiteSpace`, which is also the `\s` class of .NET regular
      expressions: U+0009..U+000D, U+0085 and the Unicode space, line and
      paragraph separators (categories Zs, Zl, Zp). */
  predicate IsWhiteSpace(c: char) {
    || ('\t' <= c <= '\r')
    || c == ' ' || c == '\U{0085}' || c == '\U{00A0}' || c == '\U{1680}'
    || ('\U{2000}' <= c <= '\U{200A}')
    || c == '\U{2028}' || c == '\U{2029}' || c == '\U{202F}' || c == '\U{205F}'
    || c == '\U{3000}'
  }

  /** `string.IsNullOrWhiteSpace` for a non-null string. */
  predicate IsBlank(s: string) {
    forall i | 0 <= i < |s| :: IsWhiteSpace(s[i])
  }

  /** The UTF-16 code units a character takes in a .NET string: two (a
      surrogate pair) above the Basic Multilingual Plane, one otherwise. */
  function Utf16Units(c: char): nat {
    if c >= '\U{10000}' then 2 else 1
  }

  /** `string.Length`, which counts UTF-16 code units, not characters. */
  function Utf16Length(s: string): (n: nat)
    ensures |s| <= n <= 2 * |s|
    decreases |s|
  {
    if s == [] then 0 else Utf16Units(s[0]) + Utf16Length(s[1..])
  }

  /** `string.Length` equals the number of characters exactly when no
      character lies above the Basic Multilingual Plane, and is twice it
      exactly when every character does. */
  lemma {:induction false} Utf16LengthBounds(s: string)
    ensures Utf16Length(s) == |s| <==> forall i | 0 <= i < |s| :: s[i] < '\U{10000}'
    ensures Utf16Length(s) == 2 * |s| <==> forall i | 0 <= i < |s| :: s[i] >= '\U{10000}'
    decreases |s|
  {
    if s != [] {
      var t := s[1..];
      Utf16LengthBounds(t);
      assert forall i | 0 <= i < |t| :: t[i] == s[i + 1];
      assert forall i | 0 < i < |s| :: s[i] == t[i - 1];
    }
  }

  /** The length of a concatenation is the sum of the lengths. */
  lemma {:induction false} Utf16LengthAppend(a: string, b: string)
    ensures Utf16Length(a + b) == Utf16Length(a) + Utf16Length(b)
    decreases |a|
  {
    if a == [] {
      assert a + b == b;
    } else {
      assert (a + b)[1..] == a[1..] + b;
      Utf16LengthAppend(a[1..], b);
    }
  }

  predicate IsDigit(c: char) {
    '0' <= c <= '9'
  }

  /** Upper-casing as `StringComparison.OrdinalIgnoreCase` applies it to the
      ASCII letters. */
  function ToUpperAscii(c: char): (u: char)
    ensures 'a' <= c <= 'z' ==> u as int == c as int - 32
    ensures !('a' <= c <= 'z') ==> u == c
  {
    if 'a' <= c <= 'z' then (c as int - 32) as char else c
  }

  /** `s.EndsWith(suffix, StringComparison.OrdinalIgnoreCase)`. */
  predicate EndsWithIgnoreCase(s: string, suffix: string) {
    && |suffix| <= |s|
    && forall i | 0 <= i < |suffix| ::
         ToUpperAscii(s[|s| - |suffix| + i]) == ToUpperAscii(suffix[i])
  }

  /** Whether a file name ends in ".csv", in any mix of letter cases: the
      last four characters are spelled out one by one. */
  lemma CsvSuffix(name: string)
    ensures EndsWithIgnoreCase(name, ".csv") <==>
      && |name| >= 4
      && name[|name| - 4] == '.'
      && name[|name| - 3] in "cC"
      && name[|name| - 2] in "sS"
      && name[|name| - 1] in "vV"
  {
    if EndsWithIgnoreCase(name, ".csv") {
      var n := |name| - 4;
      assert ToUpperAscii(name[n + 0]) == ToUpperAscii(".csv"[0]);
      assert ToUpperAscii(name[n + 1]) == ToUpperAscii(".csv"[1]);
      assert ToUpperAscii(name[n + 2]) == ToUpperAscii(".csv"[2]);
      assert ToUpperAscii(name[n + 3]) == ToUpperAscii(".csv"[3]);
    }
  }

  function DigitChar(d: nat): (c: char)
    requires d < 10
    ensures IsDigit(c)
    ensures c as int - '0' as int == d
  {
    ('0' as int + d) as char
  }

  /** The decimal digits of `n` as `int.ToString()` writes them for a
      non-negative number. */
  function NatToString(n: nat): (s: string)
    decreases n
  {
    if n < 10 then [DigitChar(n)] else NatToString(n / 10) + [DigitChar(n % 10)]
  }

  predicate AllDigits(s: string) {
    forall i | 0 <= i < |s| :: IsDigit(s[i])
  }

  /** Reads a string of decimal digits back as a number. */
  function DigitsValue(s: string): nat
    requires AllDigits(s)
  {
    if s == [] then 0
    else DigitsValue(s[..|s| - 1]) * 10 + (s[|s| - 1] as int - '0' as int)
  }

  /** Rendering a row number is non-empty, uses digits only and can be read
      back: distinct numbers give distinct text. */
  lemma {:induction false} NatToStringRoundTrip(n: nat)
    ensures |NatToString(n)| > 0
    ensures AllDigits(NatToString(n))
    ensures DigitsValue(NatToString(n)) == n
    decreases n
  {
    var s := NatToString(n);
    if n >= 10 {
      NatToStringRoundTrip(n / 10);
      var p := NatToString(n / 10);
      assert s == p + [DigitChar(n % 10)];
      assert s[..|s| - 1] == p;
    }
  }

  lemma NatToStringInjective(m: nat, n: nat)
    requires NatToString(m) == NatToString(n)
    ensures m == n
  {
    NatToStringRoundTrip(m);
    NatToStringRoundTrip(n);
  }

  /** `string.Join(sep, items)`. */
  function Join(sep: string, items: seq<string>): string
    decreases |items|
  {
    if |items| == 0 then ""
    else if |items| == 1 then items[0]
    else items[0] + sep + Join(sep, items[1..])
  }

  /** The number of occurrences of `c` in `s`. */
  function Occurrences(c: char, s: string): nat
    decreases |s|
  {
    if s == [] then 0 else (if s[0] == c then 1 else 0) + Occurrences(c, s[1..])
  }

  lemma {:induction false} OccurrencesAppend(c: char, a: string, b: string)
    ensures Occurrences(c, a + b) == Occurrences(c, a) + Occurrences(c, b)
    decreases |a|
  {
    if a == [] {
      assert a + b == b;
    } else {
      assert (a + b)[1..] == a[1..] + b;
      OccurrencesAppend(c, a[1..], b);
    }
  }

  /** When no item contains `c` and the separator contains it once, the
      joined text contains `c` exactly once per gap between items: the
      number of items can be read off the result. */
  lemma {:induction false} JoinCountsSeparators(c: char, sep: string, items: seq<string>)
    requires |items| > 0
    requires Occurrences(c, sep) == 1
    requires forall i | 0 <= i < |items| :: Occurrences(c, items[i]) == 0
    ensures Occurrences(c, Join(sep, items)) == |items| - 1
    decreases |items|
  {
    if |items| > 1 {
      JoinCountsSeparators(c, sep, items[1..]);
      OccurrencesAppend(c, items[0] + sep, Join(sep, items[1..]));
      OccurrencesAppend(c, items[0], sep);
    }
  }
}

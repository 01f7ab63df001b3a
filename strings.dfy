/**
 * The few .NET string operations the bridge relies on, with the semantics
 * of System.String: ordinal StartsWith/Contains, left-to-right
 * non-overlapping Replace, Split on one separator character (which keeps
 * empty pieces), the character classes of char.IsWhiteSpace and
 * char.IsDigit, and the ASCII digits Int32 parsing and formatting use.
 */
module Strings {

  import opened Wrappers

  predicate StartsWith(s: string, prefix: string)
  {
    |prefix| <= |s| && s[..|prefix|] == prefix
  }

  predicate EndsWith(s: string, suffix: string)
  {
    |suffix| <= |s| && s[|s| - |suffix|..] == suffix
  }

  /** String.Contains (ordinal). */
  predicate Contains(s: string, part: string)
    decreases |s|
  {
    StartsWith(s, part) || (s != [] && Contains(s[1..], part))
  }

  /** String.Replace(pattern, replacement): every non-overlapping occurrence, scanning left to right. */
  function Replace(s: string, pattern: string, replacement: string): string
    requires pattern != ""
    decreases |s|
  {
    if |s| < |pattern| then s
    else if s[..|pattern|] == pattern then replacement + Replace(s[|pattern|..], pattern, replacement)
    else [s[0]] + Replace(s[1..], pattern, replacement)
  }

  /** s with every occurrence of c removed. */
  function RemoveChar(s: string, c: char): (r: string)
    ensures c !in r
    ensures |r| <= |s|
  {
    if s == [] then []
    else if s[0] == c then RemoveChar(s[1..], c)
    else [s[0]] + RemoveChar(s[1..], c)
  }

  /** A prefix that cannot start an occurrence of the pattern is left as it is. */
  lemma {:induction false} ReplaceSkipsPrefix(s: string, t: string, pattern: string, replacement: string)
    requires pattern != ""
    requires pattern[0] !in s
    ensures Replace(s + t, pattern, replacement) == s + Replace(t, pattern, replacement)
    decreases |s|
  {
    if s != [] {
      var st := s + t;
      assert st[0] == s[0] != pattern[0];
      if |st| >= |pattern| {
        assert st[..|pattern|][0] == st[0];
      }
      assert st[1..] == s[1..] + t;
      ReplaceSkipsPrefix(s[1..], t, pattern, replacement);
    } else {
      assert s + t == t;
    }
  }

  /**
   * Text without the pattern, followed by the pattern, has only that last
   * occurrence replaced, when the pattern's first character does not recur
   * in it (so no occurrence can straddle the two).
   */
  lemma {:induction false} ReplaceBeforeSuffix(s: string, pattern: string, replacement: string)
    requires pattern != "" && pattern[0] !in pattern[1..]
    requires !Contains(s, pattern)
    ensures Replace(s + pattern, pattern, replacement) == s + replacement
    decreases |s|
  {
    var st := s + pattern;
    if s == [] {
      assert st == pattern;
      ReplaceWhole(pattern, replacement);
    } else {
      NoMatchBeforeSuffix(s, pattern);
      assert !Contains(s[1..], pattern);
      assert st[1..] == s[1..] + pattern;
      ReplaceBeforeSuffix(s[1..], pattern, replacement);
      assert Replace(st, pattern, replacement) == [s[0]] + Replace(st[1..], pattern, replacement);
      assert [s[0]] + (s[1..] + replacement) == s + replacement;
    }
  }

  lemma NoMatchBeforeSuffix(s: string, pattern: string)
    requires pattern != "" && pattern[0] !in pattern[1..]
    requires s != [] && !StartsWith(s, pattern)
    ensures (s + pattern)[..|pattern|] != pattern
  {
    var st := s + pattern;
    if |s| >= |pattern| {
      assert st[..|pattern|] == s[..|pattern|];
    } else {
      assert st[..|pattern|][|s|] == pattern[0];
      assert pattern[1..][|s| - 1] == pattern[|s|];
    }
  }

  lemma ReplaceWhole(pattern: string, replacement: string)
    requires pattern != ""
    ensures Replace(pattern, pattern, replacement) == replacement
  {
    assert pattern[..|pattern|] == pattern;
    assert pattern[|pattern|..] == "";
  }

  /** Replacing a one-character pattern by "" is the same as removing that character. */
  lemma {:induction false} ReplaceCharByEmpty(s: string, c: char)
    ensures Replace(s, [c], "") == RemoveChar(s, c)
    decreases |s|
  {
    if s != [] {
      ReplaceCharByEmpty(s[1..], c);
      assert s[..1] == [s[0]];
    }
  }

  /** String.Split(sep): the pieces between separators, empty pieces kept. */
  function Split(s: string, sep: char): (r: seq<string>)
    ensures |r| >= 1
    decreases |s|
  {
    if s == [] then [""]
    else
      var rest := Split(s[1..], sep);
      if s[0] == sep then [""] + rest
      else [[s[0]] + rest[0]] + rest[1..]
  }

  /** String.Join(sep, parts). */
  function Join(parts: seq<string>, sep: char): string
    requires |parts| >= 1
    decreases |parts|
  {
    if |parts| == 1 then parts[0] else parts[0] + [sep] + Join(parts[1..], sep)
  }

  function Last<T>(s: seq<T>): T
    requires |s| >= 1
  {
    s[|s| - 1]
  }

  /** Joining the pieces of a split gives back the string. */
  lemma {:induction false} SplitJoin(s: string, sep: char)
    ensures Join(Split(s, sep), sep) == s
    ensures forall k :: 0 <= k < |Split(s, sep)| ==> sep !in Split(s, sep)[k]
    decreases |s|
  {
    if s != [] {
      var rest := Split(s[1..], sep);
      SplitJoin(s[1..], sep);
      if s[0] == sep {
        assert Split(s, sep) == [""] + rest;
        assert Split(s, sep)[1..] == rest;
      } else {
        var r := Split(s, sep);
        assert r == [[s[0]] + rest[0]] + rest[1..];
        if |rest| == 1 {
          assert Join(r, sep) == [s[0]] + rest[0];
        } else {
          assert r[1..] == rest[1..];
          assert Join(rest, sep) == rest[0] + [sep] + Join(rest[1..], sep);
          assert Join(r, sep) == ([s[0]] + rest[0]) + [sep] + Join(rest[1..], sep);
        }
        assert s == [s[0]] + s[1..];
      }
    }
  }

  /** A split has a second piece exactly when the separator occurs. */
  lemma {:induction false} SplitHasSecondPiece(s: string, sep: char)
    ensures |Split(s, sep)| >= 2 <==> sep in s
    decreases |s|
  {
    if s != [] {
      SplitHasSecondPiece(s[1..], sep);
      assert s == [s[0]] + s[1..];
    }
  }

  /** The last piece of a split is a separator-free suffix, preceded by a separator unless it is everything. */
  lemma {:induction false} SplitLastSuffix(s: string, sep: char)
    ensures sep !in Last(Split(s, sep))
    ensures EndsWith(s, Last(Split(s, sep)))
    ensures |Last(Split(s, sep))| < |s| ==> s[|s| - |Last(Split(s, sep))| - 1] == sep
    decreases |s|
  {
    if s != [] {
      var t := s[1..];
      var rest := Split(t, sep);
      var l := Last(rest);
      SplitLastSuffix(t, sep);
      assert s == [s[0]] + t;
      if s[0] == sep || |rest| > 1 {
        assert Last(Split(s, sep)) == l;
        assert s[|s| - |l|..] == t[|t| - |l|..];
        if |l| < |t| {
          assert s[|s| - |l| - 1] == t[|t| - |l| - 1];
        } else {
          assert l == t;
          if |rest| > 1 {
            SplitHasSecondPiece(t, sep);
            assert false;
          }
        }
      } else {
        assert Split(s, sep) == [[s[0]] + rest[0]];
        SplitJoin(t, sep);
        assert t == rest[0];
      }
    }
  }

  /** char.IsWhiteSpace: the Unicode separators and the C0/C1 white-space controls. */
  predicate IsWhiteSpace(c: char)
  {
    c == ' ' || ('\t' <= c <= '\r') || c == '\U{85}' || c == '\U{A0}' || c == '\U{1680}'
    || ('\U{2000}' <= c <= '\U{200A}') || c == '\U{2028}' || c == '\U{2029}' || c == '\U{202F}'
    || c == '\U{205F}' || c == '\U{3000}'
  }

  /** string.IsNullOrWhiteSpace, with null as None. */
  predicate IsNullOrWhiteSpace(s: Option<string>)
  {
    s.None? || forall i :: 0 <= i < |s.value| ==> IsWhiteSpace(s.value[i])
  }

  /** The digits '0' to '9', the only ones Int32.Parse accepts and Int32.ToString writes. */
  predicate IsAsciiDigit(c: char)
  {
    '0' <= c <= '9'
  }

  predicate AllDigits(s: string)
  {
    forall i :: 0 <= i < |s| ==> IsAsciiDigit(s[i])
  }

  /**
   * The first code point of each block of ten decimal digits (Unicode
   * category Nd) in the Basic Multilingual Plane: ASCII, Arabic-Indic,
   * Extended Arabic-Indic, NKo, the Indic scripts, Thai, Lao, Tibetan,
   * Myanmar, Khmer, Mongolian, Limbu, New Tai Lue, Tai Tham, Balinese,
   * Sundanese, Lepcha, Ol Chiki, Vai, Saurashtra, Kayah Li, Javanese,
   * Myanmar Extended-B, Cham, Meetei Mayek and the fullwidth digits.
   */
  const DecimalDigitZeros: seq<int> := [
    0x0030, 0x0660, 0x06F0, 0x07C0, 0x0966, 0x09E6, 0x0A66, 0x0AE6, 0x0B66, 0x0BE6,
    0x0C66, 0x0CE6, 0x0D66, 0x0DE6, 0x0E50, 0x0ED0, 0x0F20, 0x1040, 0x1090, 0x17E0,
    0x1810, 0x1946, 0x19D0, 0x1A80, 0x1A90, 0x1B50, 0x1BB0, 0x1C40, 0x1C50, 0xA620,
    0xA8D0, 0xA900, 0xA9D0, 0xA9F0, 0xAA50, 0xABF0, 0xFF10]

  /**
   * char.IsDigit: a UTF-16 code unit of category Nd. A decimal digit
   * outside the Basic Multilingual Plane is a surrogate pair in .NET, and
   * neither of its units is a digit.
   */
  predicate IsDecimalDigit(c: char)
  {
    exists k :: 0 <= k < |DecimalDigitZeros| && DecimalDigitZeros[k] <= c as int < DecimalDigitZeros[k] + 10
  }

  /** s.All(char.IsDigit). */
  predicate AllDecimalDigits(s: string)
  {
    forall i :: 0 <= i < |s| ==> IsDecimalDigit(s[i])
  }

  /** Every ASCII digit is a decimal digit to char.IsDigit. */
  lemma AsciiDigitsAreDecimal(s: string)
    requires AllDigits(s)
    ensures AllDecimalDigits(s)
  {
    forall i | 0 <= i < |s|
      ensures IsDecimalDigit(s[i])
    {
      assert DecimalDigitZeros[0] <= s[i] as int < DecimalDigitZeros[0] + 10;
    }
  }

  function DigitChar(d: nat): char
    requires d < 10
  {
    ('0' as int + d) as char
  }

  /** Int32.ToString() of a non-negative number: its decimal digits, no leading zeros. */
  function NatToString(n: nat): (r: string)
    ensures |r| >= 1 && AllDigits(r)
    ensures n >= 10 ==> r[0] != '0'
  {
    if n < 10 then [DigitChar(n)] else NatToString(n / 10) + [DigitChar(n % 10)]
  }

  function DigitsValue(s: string): nat
    requires AllDigits(s)
  {
    if s == [] then 0 else DigitsValue(s[..|s| - 1]) * 10 + (s[|s| - 1] as int - '0' as int)
  }

  /** Reading the decimal digits back gives the number. */
  lemma {:induction false} NatToStringValue(n: nat)
    ensures DigitsValue(NatToString(n)) == n
  {
    if n >= 10 {
      var r := NatToString(n);
      assert r[..|r| - 1] == NatToString(n / 10);
      NatToStringValue(n / 10);
    }
  }
}

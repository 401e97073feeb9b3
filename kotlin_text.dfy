/** The Kotlin standard-library string operations the app's logic calls:
    `isWhitespace`, `isBlank`, `trim`, `startsWith`, `endsWith(ignoreCase)`,
    single-character `replace`, and string comparison by character codes. */
module KotlinText {

  /** Kotlin's `Char.isWhitespace()` on the JVM: Java's `isWhitespace` (tab,
      line feed, vertical tab, form feed, carriage return, U+001C..U+001F)
      or Java's `isSpaceChar` (space separators, line and paragraph
      separators). */
  predicate IsWhitespace(c: char) {
    || c == ' '
    || '\t' <= c <= '\r'
    || '\U{1C}' <= c <= '\U{1F}'
    || c == '\U{A0}'
    || c == '\U{1680}'
    || '\U{2000}' <= c <= '\U{200A}'
    || c == '\U{2028}'
    || c == '\U{2029}'
    || c == '\U{202F}'
    || c == '\U{205F}'
    || c == '\U{3000}'
  }

  /** Kotlin's `isBlank()`: empty or only whitespace. */
  predicate IsBlank(s: string) {
    forall i :: 0 <= i < |s| ==> IsWhitespace(s[i])
  }

  /** The number of leading whitespace characters. */
  function LeadingBlanks(s: string): (n: nat)
    ensures n <= |s|
    ensures forall i :: 0 <= i < n ==> IsWhitespace(s[i])
    ensures n < |s| ==> !IsWhitespace(s[n])
  {
    if s == [] || !IsWhitespace(s[0]) then 0 else 1 + LeadingBlanks(s[1..])
  }

  /** The number of trailing whitespace characters. */
  function TrailingBlanks(s: string): (n: nat)
    ensures n <= |s|
    ensures forall i :: |s| - n <= i < |s| ==> IsWhitespace(s[i])
    ensures n < |s| ==> !IsWhitespace(s[|s| - n - 1])
  {
    if s == [] || !IsWhitespace(s[|s| - 1]) then 0 else 1 + TrailingBlanks(s[..|s| - 1])
  }

  /** Kotlin's `trim()`: drops whitespace at both ends. The result is an infix
      of `s` that is empty exactly when `s` is blank, and otherwise begins and
      ends with a non-whitespace character; only whitespace was dropped. */
  function Trim(s: string): (r: string)
    ensures LeadingBlanks(s) + |r| <= |s|
    ensures r == s[LeadingBlanks(s)..LeadingBlanks(s) + |r|]
    ensures r == [] <==> IsBlank(s)
    ensures r != [] ==> !IsWhitespace(r[0]) && !IsWhitespace(r[|r| - 1])
    ensures forall i :: LeadingBlanks(s) + |r| <= i < |s| ==> IsWhitespace(s[i])
  {
    var a := LeadingBlanks(s);
    if a == |s| then
      []
    else
      var b := TrailingBlanks(s);
      s[a..|s| - b]
  }

  /** A trimmed string is blank only when it is empty. */
  lemma TrimBlank(s: string)
    ensures IsBlank(Trim(s)) <==> Trim(s) == []
  {
    var r := Trim(s);
    if r != [] {
      assert !IsWhitespace(r[0]);
    }
  }

  /** Kotlin's `startsWith(prefix)`. */
  predicate StartsWith(s: string, prefix: string) {
    |prefix| <= |s| && s[..|prefix|] == prefix
  }

  /** Case folding of ASCII letters, as `Char.lowercaseChar()` does for them. */
  function AsciiLower(c: char): char {
    if 'A' <= c <= 'Z' then (c as int + 32) as char else c
  }

  /** Kotlin's `Char.equals(other, ignoreCase = true)` with ASCII folding
      only. The JVM also folds some other characters (U+212A KELVIN SIGN with
      `k`, U+0130/U+0131 with `i`); none of them folds to a character of the
      font suffixes `.otf`, `.woff` and `.woff2`, the only suffixes compared
      here. */
  predicate SameIgnoringCase(a: char, b: char) {
    a == b || AsciiLower(a) == AsciiLower(b)
  }

  /** Kotlin's `endsWith(suffix, ignoreCase = true)`, with the ASCII folding of
      `SameIgnoringCase`. */
  predicate EndsWithIgnoreCase(s: string, suffix: string) {
    |suffix| <= |s|
    && forall i :: 0 <= i < |suffix| ==> SameIgnoringCase(s[|s| - |suffix| + i], suffix[i])
  }

  /** Kotlin's `replace(old, new)` where `old` is one character: every
      occurrence of `c` becomes `rep`. */
  function ReplaceChar(s: string, c: char, rep: string): string
  {
    if s == [] then [] else (if s[0] == c then rep else [s[0]]) + ReplaceChar(s[1..], c, rep)
  }

  lemma {:induction false} ReplaceCharAppend(s: string, t: string, c: char, rep: string)
    ensures ReplaceChar(s + t, c, rep) == ReplaceChar(s, c, rep) + ReplaceChar(t, c, rep)
    decreases |s|
  {
    if s == [] {
      assert s + t == t;
    } else {
      assert (s + t)[0] == s[0];
      assert (s + t)[1..] == s[1..] + t;
      ReplaceCharAppend(s[1..], t, c, rep);
    }
  }

  /** After replacing `c` by a text without `c`, no `c` is left. */
  lemma {:induction false} ReplaceCharRemoves(s: string, c: char, rep: string)
    requires c !in rep
    ensures c !in ReplaceChar(s, c, rep)
    decreases |s|
  {
    if s != [] {
      ReplaceCharRemoves(s[1..], c, rep);
    }
  }

  /** A string's character codes: the key by which `String.compareTo` orders
      strings (lexicographically, a proper prefix first). */
  function Codes(s: string): (r: seq<int>)
    ensures |r| == |s|
    ensures forall i :: 0 <= i < |s| ==> r[i] == s[i] as int
  {
    seq(|s|, i requires 0 <= i < |s| => s[i] as int)
  }

  /** Different strings have different keys. */
  lemma CodesInjective(s: string, t: string)
    requires Codes(s) == Codes(t)
    ensures s == t
  {
    assert |s| == |t|;
    forall i | 0 <= i < |s|
      ensures s[i] == t[i]
    {
      assert Codes(s)[i] == Codes(t)[i];
    }
  }
}

/**
 * The parts of `java.lang.String` that the bridge's decisions depend on:
 * `startsWith`, `contains`, `trim`, `equalsIgnoreCase` and
 * `toLowerCase(Locale.ENGLISH)`.
 */
module JavaStrings {

  /** `s.startsWith(prefix)`. */
  predicate StartsWith(s: string, prefix: string) {
    |prefix| <= |s| && s[..|prefix|] == prefix
  }

  /** `sub` occurs in `s` starting at index `i`. */
  predicate OccursAt(s: string, sub: string, i: int) {
    0 <= i && i + |sub| <= |s| && s[i..i + |sub|] == sub
  }

  /** `s.contains(sub)`. */
  predicate Contains(s: string, sub: string) {
    exists i | 0 <= i <= |s| - |sub| :: OccursAt(s, sub, i)
  }

  /** `trim` drops every character whose code is at most U+0020. */
  predicate IsTrimmable(c: char) {
    c <= ' '
  }

  /** Every character of `s` is one that `trim` drops. */
  predicate IsBlank(s: string) {
    forall i :: 0 <= i < |s| ==> IsTrimmable(s[i])
  }

  /** The leading-whitespace half of `trim`. */
  function TrimStart(s: string): (r: string)
    ensures |r| <= |s| && r == s[|s| - |r|..]
    ensures IsBlank(s[..|s| - |r|])
    ensures r == [] || !IsTrimmable(r[0])
  {
    if |s| > 0 && IsTrimmable(s[0]) then TrimStart(s[1..]) else s
  }

  /** The trailing-whitespace half of `trim`. */
  function TrimEnd(s: string): (r: string)
    ensures |r| <= |s| && r == s[..|r|]
    ensures IsBlank(s[|r|..])
    ensures r == [] || !IsTrimmable(r[|r| - 1])
  {
    if |s| > 0 && IsTrimmable(s[|s| - 1]) then
      var r := TrimEnd(s[..|s| - 1]);
      assert s[|r|..] == s[..|s| - 1][|r|..] + [s[|s| - 1]];
      r
    else
      s
  }

  /** `s.trim()`: the longest slice of `s` that neither starts nor ends with a character at most U+0020. */
  function Trim(s: string): (r: string)
    ensures r == [] || (!IsTrimmable(r[0]) && !IsTrimmable(r[|r| - 1]))
    ensures exists i | 0 <= i <= |s| - |r| :: OccursAt(s, r, i)
  {
    var t := TrimStart(s);
    var r := TrimEnd(t);
    assert OccursAt(s, r, |s| - |t|) by {
      assert r == s[|s| - |t|..][..|r|] == s[|s| - |t|..|s| - |t| + |r|];
    }
    r
  }

  /** `s.trim().equals("")` holds exactly when every character of `s` is at most U+0020. */
  lemma TrimEmptyIff(s: string)
    ensures Trim(s) == [] <==> IsBlank(s)
  {
  }

  /**
   * Java's `Character.toUpperCase` on the characters whose upper case is ASCII;
   * every other character maps to itself, so it is exact only where the result is ASCII.
   */
  function UpperChar(c: char): char {
    if 'a' <= c <= 'z' then (c as int - 32) as char
    else if c == '\U{017F}' then 'S'  // LATIN SMALL LETTER LONG S
    else if c == '\U{0131}' then 'I'  // LATIN SMALL LETTER DOTLESS I
    else c
  }

  /**
   * Java's `Character.toLowerCase` on the characters whose lower case is ASCII;
   * every other character maps to itself, so it is exact only where the result is ASCII.
   */
  function LowerChar(c: char): char {
    if 'A' <= c <= 'Z' then (c as int + 32) as char
    else if c == '\U{212A}' then 'k'  // KELVIN SIGN
    else if c == '\U{0130}' then 'i'  // LATIN CAPITAL LETTER I WITH DOT ABOVE
    else c
  }

  /** The per-character test of `String.equalsIgnoreCase`. */
  predicate CharsEqualIgnoreCase(a: char, b: char) {
    a == b || UpperChar(a) == UpperChar(b) || LowerChar(UpperChar(a)) == LowerChar(UpperChar(b))
  }

  /**
   * `s.equalsIgnoreCase(t)`, exact when `t` is ASCII: no character outside the
   * four special cases above has a Java case mapping into ASCII. For two
   * non-ASCII letters (`é` and `É`) it is stricter than Java.
   */
  predicate EqualsIgnoreCase(s: string, t: string) {
    |s| == |t| && forall i :: 0 <= i < |s| ==> CharsEqualIgnoreCase(s[i], t[i])
  }

  /**
   * `equalsIgnoreCase(m, "POST")` accepts exactly the sixteen ASCII spellings of
   * POST, plus those spelling the S as U+017F, whose Java upper case is `S`.
   */
  lemma PostIgnoringCaseIff(m: string)
    ensures EqualsIgnoreCase(m, "POST") <==>
      && |m| == 4
      && m[0] in {'P', 'p'}
      && m[1] in {'O', 'o'}
      && m[2] in {'S', 's', '\U{017F}'}
      && m[3] in {'T', 't'}
  {
  }

  /**
   * The characters `toLowerCase(Locale.ENGLISH)` produces for `c`. U+0130 is the one
   * character whose lower case is longer than itself: an `i` and a combining dot.
   */
  function LowerEnglishChar(c: char): (r: string)
    ensures 1 <= |r| <= 2
  {
    if c == '\U{0130}' then "i\U{0307}" else [LowerChar(c)]
  }

  /** `s.toLowerCase(Locale.ENGLISH)`. */
  function ToLowerEnglish(s: string): (r: string)
    ensures |s| <= |r| <= 2 * |s|
  {
    if s == [] then [] else LowerEnglishChar(s[0]) + ToLowerEnglish(s[1..])
  }

  /** ASCII letters, digits and punctuation other than upper-case letters. */
  predicate IsLowerAscii(t: string) {
    forall i :: 0 <= i < |t| ==> t[i] < '\U{0080}' && !('A' <= t[i] <= 'Z')
  }

  /**
   * Comparing `toLowerCase(Locale.ENGLISH)` of `s` with a lower-case ASCII string
   * is a character-by-character comparison of `LowerChar`: the two-character
   * expansion of U+0130 never matches such a string.
   */
  lemma {:induction false} LowerEnglishEqualsAscii(s: string, t: string)
    requires IsLowerAscii(t)
    ensures ToLowerEnglish(s) == t <==>
      |s| == |t| && forall i :: 0 <= i < |s| ==> s[i] != '\U{0130}' && LowerChar(s[i]) == t[i]
  {
    if s == [] {
    } else if |t| == 0 {
    } else {
      LowerEnglishEqualsAscii(s[1..], t[1..]);
      if s[0] == '\U{0130}' {
        assert ToLowerEnglish(s)[1] == '\U{0307}';
      } else {
        var r := ToLowerEnglish(s);
        assert r == [LowerChar(s[0])] + ToLowerEnglish(s[1..]);
        if r == t {
          assert ToLowerEnglish(s[1..]) == t[1..];
          assert forall i :: 1 <= i < |s| ==> s[i] == s[1..][i - 1] && t[i] == t[1..][i - 1];
        }
        if |s| == |t| && forall i :: 0 <= i < |s| ==> s[i] != '\U{0130}' && LowerChar(s[i]) == t[i] {
          assert forall i :: 0 <= i < |s| - 1 ==> s[1..][i] == s[i + 1] && t[1..][i] == t[i + 1];
          assert r == t;
        }
      }
    }
  }
}

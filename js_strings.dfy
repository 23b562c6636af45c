/** The parts of JavaScript's string and array library that the CSS
    utilities rely on: `toLowerCase` (restricted to ASCII), `startsWith`,
    `endsWith`, `Array.prototype.indexOf`, the whitespace class `\s` and
    `String.prototype.trim`. */
module JsStrings {

  /** `toLowerCase` on one character, restricted to the Basic Latin letters. */
  function LowerChar(c: char): char
  {
    if 'A' <= c <= 'Z' then (c as int + 32) as char else c
  }

  /** `s.toLowerCase()`, ASCII letters only: each upper-case letter becomes
      its lower-case partner, every other character stays, and no upper-case
      letter is left. */
  function Lower(s: string): (r: string)
    ensures |r| == |s|
    ensures forall i :: 0 <= i < |s| ==> r[i] == s[i] || ('A' <= s[i] <= 'Z' && r[i] as int == s[i] as int + 32)
    ensures forall i :: 0 <= i < |r| ==> !('A' <= r[i] <= 'Z')
  {
    seq(|s|, i requires 0 <= i < |s| => LowerChar(s[i]))
  }

  predicate IsLowerCase(s: string)
  {
    Lower(s) == s
  }

  predicate IsAsciiLetter(c: char)
  {
    'a' <= c <= 'z' || 'A' <= c <= 'Z'
  }

  /** `\w` in a JavaScript regular expression. */
  predicate IsWordChar(c: char)
  {
    IsAsciiLetter(c) || '0' <= c <= '9' || c == '_'
  }

  /** `\s` in a JavaScript regular expression; also the set `trim` removes
      (WhiteSpace and LineTerminator of ECMAScript). */
  const JsWhitespace: set<char> :=
    {'\t', '\n', '\U{000B}', '\U{000C}', '\r', ' ', '\U{00A0}', '\U{1680}',
     '\U{2000}', '\U{2001}', '\U{2002}', '\U{2003}', '\U{2004}', '\U{2005}',
     '\U{2006}', '\U{2007}', '\U{2008}', '\U{2009}', '\U{200A}',
     '\U{2028}', '\U{2029}', '\U{202F}', '\U{205F}', '\U{3000}', '\U{FEFF}'}

  predicate IsJsWhitespace(c: char)
  {
    c in JsWhitespace
  }

  /** The characters `.` does not match in a JavaScript regular expression. */
  predicate IsLineTerminator(c: char)
  {
    c == '\n' || c == '\r' || c == '\U{2028}' || c == '\U{2029}'
  }

  predicate StartsWith(s: string, prefix: string)
  {
    |prefix| <= |s| && s[..|prefix|] == prefix
  }

  predicate EndsWith(s: string, suffix: string)
  {
    |suffix| <= |s| && s[|s| - |suffix|..] == suffix
  }

  lemma LowerIdempotent(s: string)
    ensures Lower(Lower(s)) == Lower(s)
  {
  }

  /** `s.indexOf(x)` on an array: the first position of `x`, or -1. */
  function IndexOf<T(==)>(s: seq<T>, x: T): (r: int)
    ensures -1 <= r < |s|
    ensures r == -1 <==> x !in s
    ensures r >= 0 ==> s[r] == x && x !in s[..r]
  {
    if s == [] then -1
    else if s[0] == x then 0
    else
      var r := IndexOf(s[1..], x);
      assert s[1..][..if r == -1 then 0 else r] == s[1..1 + if r == -1 then 0 else r];
      if r == -1 then -1 else r + 1
  }

  /** The first position at or after `i` whose character is not in `ws`,
      or the end of `s`. */
  function SkipForward(s: string, ws: set<char>, i: nat): (n: nat)
    requires i <= |s|
    ensures i <= n <= |s|
    ensures forall k :: i <= k < n ==> s[k] in ws
    ensures n < |s| ==> s[n] !in ws
    decreases |s| - i
  {
    if i < |s| && s[i] in ws then SkipForward(s, ws, i + 1) else i
  }

  /** The position just after the last character before `j` that is not in
      `ws`, searching no further back than `lo`. */
  function SkipBackward(s: string, ws: set<char>, lo: nat, j: nat): (n: nat)
    requires lo <= j <= |s|
    ensures lo <= n <= j
    ensures forall k :: n <= k < j ==> s[k] in ws
    ensures n > lo ==> s[n - 1] !in ws
    decreases j
  {
    if j > lo && s[j - 1] in ws then SkipBackward(s, ws, lo, j - 1) else j
  }

  /** `s` with the characters of `ws` cut from both ends: the slice between
      a prefix and a suffix made of `ws`, with no character of `ws` at
      either of its own ends. */
  function TrimSet(s: string, ws: set<char>): (r: string)
    ensures exists i, j ::
      (&& 0 <= i <= j <= |s| && r == s[i..j]
       && (forall k :: 0 <= k < i ==> s[k] in ws)
       && (forall k :: j <= k < |s| ==> s[k] in ws))
    ensures r != [] ==> r[0] !in ws && r[|r| - 1] !in ws
    ensures r == [] <==> forall k :: 0 <= k < |s| ==> s[k] in ws
    ensures forall c :: c in r ==> c in s
  {
    var i := SkipForward(s, ws, 0);
    var j := SkipBackward(s, ws, i, |s|);
    s[i..j]
  }

  /** `s.trim()`: the result is the slice of `s` left after cutting
      whitespace from both ends, with no whitespace at either end of its
      own, and it is empty exactly when `s` is all whitespace. */
  function Trim(s: string): (r: string)
    ensures forall c :: c in r ==> c in s
    ensures r != [] ==> !IsJsWhitespace(r[0]) && !IsJsWhitespace(r[|r| - 1])
    ensures r == [] <==> forall k :: 0 <= k < |s| ==> IsJsWhitespace(s[k])
    ensures exists i, j ::
      (&& 0 <= i <= j <= |s| && r == s[i..j]
       && (forall k :: 0 <= k < i ==> IsJsWhitespace(s[k]))
       && (forall k :: j <= k < |s| ==> IsJsWhitespace(s[k])))
  {
    TrimSet(s, JsWhitespace)
  }
}

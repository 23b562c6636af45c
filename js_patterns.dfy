/** The regular expressions of the CSS utilities, each written out as a
    predicate over positions of the searched text (or, for the two
    first-occurrence replacements, as a leftmost search whose result is
    proved to be the match a JavaScript regular expression finds). */
module JsPatterns {
  import opened Wrappers
  import opened JsStrings

  // /(\w\s*: [^}:]+|#){|@import[^\n]+(url|,)/, searched anywhere in the text.

  /** `\w\s*: [^}:]+{` with the word character at `i`, the colon at `j` and
      the brace at `k`. */
  predicate DeclBeforeBlockAt(t: string, i: int, j: int, k: int)
  {
    0 <= i < j && j + 2 < k < |t|
    && IsWordChar(t[i])
    && (forall m :: i < m < j ==> IsJsWhitespace(t[m]))
    && t[j] == ':' && t[j + 1] == ' '
    && (forall m :: j + 2 <= m < k ==> t[m] != '}' && t[m] != ':')
    && t[k] == '{'
  }

  /** `#{` at `i`. */
  predicate InterpolationBlockAt(t: string, i: int)
  {
    0 <= i && i + 1 < |t| && t[i] == '#' && t[i + 1] == '{'
  }

  /** `@import[^\n]+(url|,)` with the `@` at `i` and `url` or `,` at `k`. */
  predicate ImportListAt(t: string, i: int, k: int)
  {
    0 <= i && i + 7 < k <= |t|
    && t[i..i + 7] == "@import"
    && (forall m :: i + 7 <= m < k ==> t[m] != '\n')
    && (StartsWith(t[k..], "url") || (k < |t| && t[k] == ','))
  }

  /** The pattern occurs somewhere in `t`. */
  predicate PossiblySCSS(t: string)
  {
    (exists i, j, k | 0 <= i < j < k < |t| :: DeclBeforeBlockAt(t, i, j, k))
    || (exists i | 0 <= i < |t| :: InterpolationBlockAt(t, i))
    || (exists i, k | 0 <= i < k <= |t| :: ImportListAt(t, i, k))
  }

  /** The search is unanchored: a text containing a matching text matches. */
  lemma {:induction false} PossiblySCSSInLargerText(t: string, u: string, o: nat)
    requires o + |t| <= |u| && u[o..o + |t|] == t
    requires PossiblySCSS(t)
    ensures PossiblySCSS(u)
  {
    if exists i, j, k | 0 <= i < j < k < |t| :: DeclBeforeBlockAt(t, i, j, k) {
      var i, j, k :| 0 <= i < j < k < |t| && DeclBeforeBlockAt(t, i, j, k);
      DeclBeforeBlockShifted(t, u, o, i, j, k);
    } else if exists i | 0 <= i < |t| :: InterpolationBlockAt(t, i) {
      var i :| 0 <= i < |t| && InterpolationBlockAt(t, i);
      assert u[o + i] == t[i] && u[o + i + 1] == t[i + 1];
      assert InterpolationBlockAt(u, o + i);
    } else {
      var i, k :| 0 <= i < k <= |t| && ImportListAt(t, i, k);
      ImportListShifted(t, u, o, i, k);
    }
  }

  lemma DeclBeforeBlockShifted(t: string, u: string, o: nat, i: int, j: int, k: int)
    requires o + |t| <= |u| && u[o..o + |t|] == t
    requires DeclBeforeBlockAt(t, i, j, k)
    ensures DeclBeforeBlockAt(u, o + i, o + j, o + k)
  {
  }

  lemma ImportListShifted(t: string, u: string, o: nat, i: int, k: int)
    requires o + |t| <= |u| && u[o..o + |t|] == t
    requires ImportListAt(t, i, k)
    ensures ImportListAt(u, o + i, o + k)
  {
    assert forall m :: 0 <= m < |t| ==> u[o + m] == t[m];
    assert u[o + i..o + i + 7] == t[i..i + 7];
    assert forall m :: o + i + 7 <= m < o + k ==> u[m] == t[m - o];
    if StartsWith(t[k..], "url") {
      assert u[o + k..][..3] == t[k..][..3];
    } else {
      assert u[o + k] == ',';
    }
  }

  // /^@.+:.*$/

  /** `/^@.+:.*$/` with the colon at `k`; `.` matches anything but a line
      terminator and `$` is the end of the text. */
  predicate AtNameColonAt(s: string, k: int)
  {
    2 <= k < |s| && s[0] == '@' && s[k] == ':'
    && (forall m :: 1 <= m < k ==> !IsLineTerminator(s[m]))
    && (forall m :: k < m < |s| ==> !IsLineTerminator(s[m]))
  }

  predicate AtNameColonShape(s: string)
  {
    exists k | 2 <= k < |s| :: AtNameColonAt(s, k)
  }

  /** The pattern holds exactly of one-line texts that start with `@` and
      hold a colon after at least one more character. */
  lemma {:induction false} AtNameColonShapeIff(s: string)
    ensures AtNameColonShape(s) <==>
      |s| >= 3 && s[0] == '@' && ':' in s[2..]
      && forall m :: 0 <= m < |s| ==> !IsLineTerminator(s[m])
  {
    if AtNameColonShape(s) {
      var k :| 2 <= k < |s| && AtNameColonAt(s, k);
      assert s[2..][k - 2] == ':';
    }
    if |s| >= 3 && s[0] == '@' && ':' in s[2..] && forall m :: 0 <= m < |s| ==> !IsLineTerminator(s[m]) {
      var k :| 0 <= k < |s[2..]| && s[2..][k] == ':';
      assert AtNameColonAt(s, k + 2);
    }
  }

  // /^\(\s*\)$/

  /** `/^\(\s*\)$/`: an opening and a closing parenthesis with nothing but
      whitespace between them. */
  predicate EmptyParensShape(s: string)
  {
    |s| >= 2 && s[0] == '(' && s[|s| - 1] == ')'
    && forall m :: 0 < m < |s| - 1 ==> IsJsWhitespace(s[m])
  }

  /** Equivalently: the text between the outer parentheses trims to nothing. */
  lemma EmptyParensShapeIff(s: string)
    ensures EmptyParensShape(s) <==>
      |s| >= 2 && s[0] == '(' && s[|s| - 1] == ')' && Trim(s[1..|s| - 1]) == []
  {
  }

  // s.replace(/\/\*.*?\*\//, "")

  predicate OpensBlockComment(s: string, i: int)
  {
    0 <= i && i + 2 <= |s| && s[i] == '/' && s[i + 1] == '*'
  }

  predicate ClosesBlockComment(s: string, j: int)
  {
    0 <= j && j + 2 <= |s| && s[j] == '*' && s[j + 1] == '/'
  }

  /** `/\/\*.*?\*\//` matches `s[i..j + 2]`: `/*` at `i`, `*/` at `j`, and no
      line terminator between them. */
  predicate BlockCommentAt(s: string, i: int, j: int)
  {
    OpensBlockComment(s, i) && i + 2 <= j && ClosesBlockComment(s, j)
    && forall m :: i + 2 <= m < j ==> !IsLineTerminator(s[m])
  }

  /** The lazy `.*?\*\/` after the `/*` at `i`, tried from `j` on: the first
      closing `*/`, if one is reached before a line terminator. */
  function BlockCommentClose(s: string, i: nat, j: nat): (r: Option<nat>)
    requires OpensBlockComment(s, i) && i + 2 <= j <= |s|
    requires forall m :: i + 2 <= m < j ==> !IsLineTerminator(s[m])
    ensures r.Some? ==>
      && j <= r.value && BlockCommentAt(s, i, r.value)
      && forall c :: j <= c < r.value ==> !BlockCommentAt(s, i, c)
    ensures r.None? ==> forall c :: j <= c ==> !BlockCommentAt(s, i, c)
    decreases |s| - j
  {
    if ClosesBlockComment(s, j) then Some(j)
    else if j < |s| && !IsLineTerminator(s[j]) then BlockCommentClose(s, i, j + 1)
    else None
  }

  /** The match the regular expression finds when searching from `i`: the
      leftmost start, and at that start the shortest match. The pair holds
      the start of `/*` and the start of `*/`. */
  function FirstBlockComment(s: string, i: nat): (r: Option<(nat, nat)>)
    requires i <= |s|
    ensures r.Some? ==>
      && i <= r.value.0
      && BlockCommentAt(s, r.value.0, r.value.1)
      && (forall a, c :: i <= a < r.value.0 ==> !BlockCommentAt(s, a, c))
      && (forall c :: c < r.value.1 ==> !BlockCommentAt(s, r.value.0, c))
    ensures r.None? ==> forall a, c :: i <= a ==> !BlockCommentAt(s, a, c)
    decreases |s| - i
  {
    if i == |s| then None
    else if OpensBlockComment(s, i) && BlockCommentClose(s, i, i + 2).Some? then
      Some((i, BlockCommentClose(s, i, i + 2).value))
    else FirstBlockComment(s, i + 1)
  }

  /** The match a search from the start of `s` finds: no block comment
      starts earlier, and none at `a` closes earlier. */
  ghost predicate LeftmostBlockComment(s: string, a: int, c: int)
  {
    BlockCommentAt(s, a, c)
    && (forall a', c' :: 0 <= a' < a ==> !BlockCommentAt(s, a', c'))
    && (forall c' :: c' < c ==> !BlockCommentAt(s, a, c'))
  }

  /** `s.replace(/\/\*.*?\*\//, "")`: the leftmost, shortest match is cut out
      and the rest of the text is kept as it was. */
  function StripFirstBlockComment(s: string): (r: string)
    ensures forall c :: c in r ==> c in s
    ensures (forall a, c :: !BlockCommentAt(s, a, c)) ==> r == s
    ensures (exists a, c :: BlockCommentAt(s, a, c)) ==> |r| <= |s| - 4
    ensures (exists a, c :: BlockCommentAt(s, a, c)) ==> exists a, c :: LeftmostBlockComment(s, a, c)
    ensures forall a, c :: LeftmostBlockComment(s, a, c) ==> r == s[..a] + s[c + 2..]
  {
    match FirstBlockComment(s, 0)
    case None => s
    case Some((a, c)) =>
      assert LeftmostBlockComment(s, a, c);
      assert forall x :: x in s[..a] + s[c + 2..] ==> x in s[..a] || x in s[c + 2..];
      s[..a] + s[c + 2..]
  }

  // s.replace(/\/\/.*?\n/, "")

  /** `/\/\/.*?\n/` matches `s[i..j + 1]`: `//` at `i`, a newline at `j`,
      and no line terminator between them. */
  predicate LineCommentAt(s: string, i: int, j: int)
  {
    0 <= i && i + 2 <= j < |s| && s[i] == '/' && s[i + 1] == '/' && s[j] == '\n'
    && forall m :: i + 2 <= m < j ==> !IsLineTerminator(s[m])
  }

  /** The lazy `.*?\n` after the `//` at `i`, tried from `j` on. */
  function LineCommentEnd(s: string, i: nat, j: nat): (r: Option<nat>)
    requires i + 2 <= j <= |s| && s[i] == '/' && s[i + 1] == '/'
    requires forall m :: i + 2 <= m < j ==> !IsLineTerminator(s[m])
    ensures r.Some? ==> j <= r.value && LineCommentAt(s, i, r.value)
    ensures r.None? ==> forall e :: j <= e ==> !LineCommentAt(s, i, e)
    decreases |s| - j
  {
    if j == |s| then None
    else if s[j] == '\n' then Some(j)
    else if !IsLineTerminator(s[j]) then LineCommentEnd(s, i, j + 1)
    else None
  }

  /** The leftmost match when searching from `i`: the start of `//` and the
      position of the newline that ends it. */
  function FirstLineComment(s: string, i: nat): (r: Option<(nat, nat)>)
    requires i <= |s|
    ensures r.Some? ==>
      && i <= r.value.0
      && LineCommentAt(s, r.value.0, r.value.1)
      && (forall a, e :: i <= a < r.value.0 ==> !LineCommentAt(s, a, e))
    ensures r.None? ==> forall a, e :: i <= a ==> !LineCommentAt(s, a, e)
    decreases |s| - i
  {
    if i == |s| then None
    else if i + 2 <= |s| && s[i] == '/' && s[i + 1] == '/' && LineCommentEnd(s, i, i + 2).Some? then
      Some((i, LineCommentEnd(s, i, i + 2).value))
    else FirstLineComment(s, i + 1)
  }

  /** A line comment ends at the first line break after its `//`, so a
      match has only one possible end. */
  lemma LineCommentEndUnique(s: string, a: int, e: int, e': int)
    requires LineCommentAt(s, a, e) && LineCommentAt(s, a, e')
    ensures e == e'
  {
  }

  /** The match a search from the start of `s` finds: no line comment
      starts earlier. */
  ghost predicate LeftmostLineComment(s: string, a: int, e: int)
  {
    LineCommentAt(s, a, e) && forall a', e' :: 0 <= a' < a ==> !LineCommentAt(s, a', e')
  }

  /** `s.replace(/\/\/.*?\n/, "")`: the leftmost match, newline included, is
      cut out and the rest of the text is kept as it was. */
  function StripFirstLineComment(s: string): (r: string)
    ensures forall c :: c in r ==> c in s
    ensures (forall a, e :: !LineCommentAt(s, a, e)) ==> r == s
    ensures (exists a, e :: LineCommentAt(s, a, e)) ==> |r| <= |s| - 3
    ensures (exists a, e :: LineCommentAt(s, a, e)) ==> exists a, e :: LeftmostLineComment(s, a, e)
    ensures forall a, e :: LeftmostLineComment(s, a, e) ==> r == s[..a] + s[e + 1..]
  {
    match FirstLineComment(s, 0)
    case None => s
    case Some((a, e)) =>
      assert LeftmostLineComment(s, a, e);
      assert forall a', e' :: LeftmostLineComment(s, a', e') ==> a' == a && e' == e by {
        forall a', e' | LeftmostLineComment(s, a', e')
          ensures a' == a && e' == e
        {
          LineCommentEndUnique(s, a, e, e');
        }
      }
      assert forall x :: x in s[..a] + s[e + 1..] ==> x in s[..a] || x in s[e + 1..];
      s[..a] + s[e + 1..]
  }
}

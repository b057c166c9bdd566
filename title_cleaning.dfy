/** The normaliser `cleanTitle`: lower-case, delete bracketed groups, delete
    special characters, collapse whitespace runs, trim. Each step is one
    function; `CleanTitle` chains them in the source's order. */
module TitleCleaning {

  datatype Option<T> = None | Some(value: T)

  // ---------------------------------------------------------------------
  // Character classes of JavaScript regular expressions (no `u` flag)
  // ---------------------------------------------------------------------

  predicate IsUpper(c: char) { 'A' <= c <= 'Z' }

  /** `\w`: ASCII letters, digits and the underscore. */
  predicate IsWordChar(c: char) {
    'a' <= c <= 'z' || 'A' <= c <= 'Z' || '0' <= c <= '9' || c == '_'
  }

  /** The line terminators, which `.` does not match. */
  predicate IsLineTerminator(c: char) {
    c == '\n' || c == '\r' || c == '\U{2028}' || c == '\U{2029}'
  }

  /** `\s`, and what `trim` removes: the white-space characters (tab, vertical
      tab, form feed, space, no-break space, byte-order mark and the Unicode
      space separators) together with the line terminators. */
  predicate IsWhitespace(c: char) {
    c == '\t' || c == '\U{000B}' || c == '\U{000C}' || c == ' ' || c == '\U{00A0}' ||
    c == '\U{FEFF}' || c == '\U{1680}' || ('\U{2000}' <= c <= '\U{200A}') ||
    c == '\U{202F}' || c == '\U{205F}' || c == '\U{3000}' || IsLineTerminator(c)
  }

  predicate IsOpener(c: char) { c == '(' || c == '[' || c == '{' }

  predicate IsCloser(c: char) { c == ')' || c == ']' || c == '}' }

  function CloserOf(c: char): (r: char)
    requires IsOpener(c)
    ensures IsCloser(r)
  {
    if c == '(' then ')' else if c == '[' then ']' else '}'
  }

  /** A character `cleanTitle` can return: a lower-case letter, a digit, `_` or a space. */
  predicate IsCleanChar(c: char) {
    'a' <= c <= 'z' || '0' <= c <= '9' || c == '_' || c == ' '
  }

  /** The shape of every result of `cleanTitle`. */
  ghost predicate IsClean(s: seq<char>) {
    (forall i :: 0 <= i < |s| ==> IsCleanChar(s[i])) &&
    (s != [] ==> s[0] != ' ' && s[|s| - 1] != ' ') &&
    SingleSpaced(s)
  }

  /** No two neighbouring characters are both spaces. */
  ghost predicate SingleSpaced(s: seq<char>) {
    forall i, j :: 0 <= i < j < |s| && j == i + 1 ==> !(s[i] == ' ' && s[j] == ' ')
  }

  // ---------------------------------------------------------------------
  // Step 1: toLowerCase
  // ---------------------------------------------------------------------

  /** The lower case of one character, for the characters whose lower case
      can survive the later steps: ASCII capitals, KELVIN SIGN (lower case
      `k`) and LATIN CAPITAL LETTER I WITH DOT ABOVE (lower case `i` followed
      by COMBINING DOT ABOVE). Every other character is kept: its lower case,
      if different, is neither ASCII nor white space nor a bracket, so the
      later steps treat the two alike. */
  function LowerChar(c: char): (r: seq<char>)
    ensures forall k :: 0 <= k < |r| ==> !IsUpper(r[k])
  {
    if IsUpper(c) then [(c as int + 32) as char]
    else if c == '\U{212A}' then ['k']
    else if c == '\U{0130}' then ['i', '\U{0307}']
    else [c]
  }

  function ToLower(s: seq<char>): (r: seq<char>)
    ensures forall k :: 0 <= k < |r| ==> !IsUpper(r[k])
  {
    if s == [] then [] else LowerChar(s[0]) + ToLower(s[1..])
  }

  // ---------------------------------------------------------------------
  // Step 2: replace(/\(.*?\)|\[.*?\]|{.*?}/g, '')
  // ---------------------------------------------------------------------

  /** Where the lazy `.*?` stops: the index in `s` of the first `closer`,
      provided no line terminator comes before it. */
  function FindCloser(s: seq<char>, closer: char): (r: Option<nat>)
    requires IsCloser(closer)
    ensures r.Some? ==> r.value < |s| && s[r.value] == closer
    ensures r.Some? ==> forall k :: 0 <= k < r.value ==> s[k] != closer && !IsLineTerminator(s[k])
    ensures r.None? ==> forall k :: 0 <= k < |s| && s[k] == closer ==>
                          exists m :: 0 <= m < k && IsLineTerminator(s[m])
  {
    if s == [] then None
    else if s[0] == closer then Some(0)
    else if IsLineTerminator(s[0]) then None
    else match FindCloser(s[1..], closer)
      case None => None
      case Some(k) => Some(k + 1)
  }

  /** Scans left to right; at an opener with a reachable closer the whole
      group is deleted and the scan resumes after the closer, otherwise the
      character is kept and the scan moves on by one. */
  function StripBrackets(s: seq<char>): (r: seq<char>)
    ensures |r| <= |s|
    decreases |s|
  {
    if s == [] then []
    else if IsOpener(s[0]) && FindCloser(s[1..], CloserOf(s[0])).Some? then
      StripBrackets(s[FindCloser(s[1..], CloserOf(s[0])).value + 2..])
    else
      [s[0]] + StripBrackets(s[1..])
  }

  /** Bracket removal only deletes characters. */
  lemma {:induction false} StripBracketsChars(s: seq<char>)
    ensures multiset(StripBrackets(s)) <= multiset(s)
    decreases |s|
  {
    if s == [] {
    } else if IsOpener(s[0]) && FindCloser(s[1..], CloserOf(s[0])).Some? {
      var k := FindCloser(s[1..], CloserOf(s[0])).value;
      assert s == s[..k + 2] + s[k + 2..];
      StripBracketsChars(s[k + 2..]);
    } else {
      assert s == [s[0]] + s[1..];
      StripBracketsChars(s[1..]);
    }
  }

  // ---------------------------------------------------------------------
  // Step 3: replace(/[^\w\s]/g, '')
  // ---------------------------------------------------------------------

  function RemoveSpecial(s: seq<char>): (r: seq<char>)
    ensures forall k :: 0 <= k < |r| ==> IsWordChar(r[k]) || IsWhitespace(r[k])
  {
    if s == [] then []
    else if IsWordChar(s[0]) || IsWhitespace(s[0]) then [s[0]] + RemoveSpecial(s[1..])
    else RemoveSpecial(s[1..])
  }

  /** Step 3 keeps every occurrence of a word or white-space character and
      deletes every occurrence of any other character. */
  lemma {:induction false} RemoveSpecialChars(s: seq<char>)
    ensures forall c :: multiset(RemoveSpecial(s))[c] ==
                        if IsWordChar(c) || IsWhitespace(c) then multiset(s)[c] else 0
  {
    if s != [] {
      assert s == [s[0]] + s[1..];
      RemoveSpecialChars(s[1..]);
    }
  }

  // ---------------------------------------------------------------------
  // Step 4: replace(/\s+/g, ' ')
  // ---------------------------------------------------------------------

  /** Drops the leading white space of `s`. */
  function SkipWhitespace(s: seq<char>): (r: seq<char>)
    ensures |r| <= |s| && r == s[|s| - |r|..]
    ensures forall k :: 0 <= k < |s| - |r| ==> IsWhitespace(s[k])
    ensures r != [] ==> !IsWhitespace(r[0])
  {
    if s != [] && IsWhitespace(s[0]) then SkipWhitespace(s[1..]) else s
  }

  function CollapseWhitespace(s: seq<char>): (r: seq<char>)
    ensures forall k :: 0 <= k < |r| && IsWhitespace(r[k]) ==> r[k] == ' '
    ensures SingleSpaced(r)
    ensures s != [] ==> r != [] && r[0] == (if IsWhitespace(s[0]) then ' ' else s[0])
    decreases |s|
  {
    if s == [] then []
    else if IsWhitespace(s[0]) then [' '] + CollapseWhitespace(SkipWhitespace(s))
    else [s[0]] + CollapseWhitespace(s[1..])
  }

  /** Step 4 keeps every occurrence of every character that is not white space. */
  lemma {:induction false} CollapseWhitespaceChars(s: seq<char>)
    ensures forall c :: !IsWhitespace(c) ==> multiset(CollapseWhitespace(s))[c] == multiset(s)[c]
    decreases |s|
  {
    if s == [] {
    } else if IsWhitespace(s[0]) {
      var rest := SkipWhitespace(s);
      var run := s[..|s| - |rest|];
      WhitespaceFree(run);
      assert s == run + rest;
      CollapseAtSpace(s);
      CollapseWhitespaceChars(rest);
    } else {
      var c, t := s[0], s[1..];
      assert s == [c] + t;
      CollapseAtWord(c, t);
      CollapseWhitespaceChars(t);
    }
  }

  /** A run of white space holds no character that is not white space. */
  lemma WhitespaceFree(w: seq<char>)
    requires forall k :: 0 <= k < |w| ==> IsWhitespace(w[k])
    ensures forall c :: !IsWhitespace(c) ==> multiset(w)[c] == 0
  {
  }

  // ---------------------------------------------------------------------
  // Step 5: trim()
  // ---------------------------------------------------------------------

  function TrimEnd(s: seq<char>): (r: seq<char>)
    ensures |r| <= |s| && r == s[..|r|]
    ensures forall k :: |r| <= k < |s| ==> IsWhitespace(s[k])
    ensures r != [] ==> !IsWhitespace(r[|r| - 1])
  {
    if s != [] && IsWhitespace(s[|s| - 1]) then TrimEnd(s[..|s| - 1]) else s
  }

  /** The leading white space removed by `trim`. */
  function TrimStart(s: seq<char>): (r: seq<char>)
    ensures |r| <= |s| && r == s[|s| - |r|..]
    ensures forall k :: 0 <= k < |s| - |r| ==> IsWhitespace(s[k])
    ensures r != [] ==> !IsWhitespace(r[0])
  {
    SkipWhitespace(s)
  }

  function Trim(s: seq<char>): (r: seq<char>)
    ensures exists i, j :: 0 <= i <= j <= |s| && r == s[i..j] &&
                           (forall k :: 0 <= k < i ==> IsWhitespace(s[k])) &&
                           (forall k :: j <= k < |s| ==> IsWhitespace(s[k]))
    ensures r != [] ==> !IsWhitespace(r[0]) && !IsWhitespace(r[|r| - 1])
  {
    var t := TrimStart(s);
    var r := TrimEnd(t);
    assert r == s[|s| - |t|..|s| - |t| + |r|];
    r
  }

  // ---------------------------------------------------------------------
  // cleanTitle
  // ---------------------------------------------------------------------

  /** `cleanTitle`: lower-case, drop bracketed groups, drop every character
      that is neither a word character nor white space, collapse white-space
      runs and trim. The full shape of the result is `CleanTitleShape`. */
  function CleanTitle(title: seq<char>): (r: seq<char>)
    ensures r != [] ==> r[0] != ' ' && r[|r| - 1] != ' '
  {
    Trim(CollapseWhitespace(RemoveSpecial(StripBrackets(ToLower(title)))))
  }

  /** Every result of cleanTitle has the clean shape: only lower-case ASCII
      letters, digits, `_` and single spaces, and no space at either end. */
  lemma CleanTitleShape(title: seq<char>)
    ensures IsClean(CleanTitle(title))
  {
    var lowered := ToLower(title);
    var stripped := StripBrackets(lowered);
    var special := RemoveSpecial(stripped);
    var collapsed := CollapseWhitespace(special);
    StripBracketsChars(lowered);
    RemoveSpecialChars(stripped);
    CollapseWhitespaceChars(special);
    CleanCharsThrough(lowered, stripped, special, collapsed);
    TrimKeepsShape(collapsed);
  }

  /** Steps 2 to 4 let through only lower-case word characters and spaces. */
  lemma CleanCharsThrough(lowered: seq<char>, stripped: seq<char>, special: seq<char>, collapsed: seq<char>)
    requires forall k :: 0 <= k < |lowered| ==> !IsUpper(lowered[k])
    requires multiset(stripped) <= multiset(lowered)
    requires forall c :: multiset(special)[c] == if IsWordChar(c) || IsWhitespace(c) then multiset(stripped)[c] else 0
    requires forall k :: 0 <= k < |collapsed| && IsWhitespace(collapsed[k]) ==> collapsed[k] == ' '
    requires forall c :: !IsWhitespace(c) ==> multiset(collapsed)[c] == multiset(special)[c]
    ensures forall k :: 0 <= k < |collapsed| ==> IsCleanChar(collapsed[k])
  {
    forall k | 0 <= k < |collapsed|
      ensures IsCleanChar(collapsed[k])
    {
      var c := collapsed[k];
      if !IsWhitespace(c) {
        assert c in multiset(collapsed);
        assert c in multiset(lowered);
        var m :| 0 <= m < |lowered| && lowered[m] == c;
      }
    }
  }

  /** Trimming a string of clean characters without double spaces gives a clean string. */
  lemma TrimKeepsShape(s: seq<char>)
    requires forall k :: 0 <= k < |s| ==> IsCleanChar(s[k])
    requires SingleSpaced(s)
    ensures IsClean(Trim(s))
  {
    var i, j := TrimBounds(s);
    CleanSlice(s, i, j);
  }

  /** Where the trimmed string sits in the original. */
  lemma TrimBounds(s: seq<char>) returns (i: nat, j: nat)
    ensures i <= j <= |s| && Trim(s) == s[i..j]
    ensures i < j ==> !IsWhitespace(s[i]) && !IsWhitespace(s[j - 1])
  {
    var t := TrimStart(s);
    var r := TrimEnd(t);
    i, j := |s| - |t|, |s| - |t| + |r|;
    assert r == s[i..j];
  }

  /** A slice of clean characters without double spaces that neither starts
      nor ends with a space is clean. */
  lemma CleanSlice(s: seq<char>, i: nat, j: nat)
    requires i <= j <= |s|
    requires forall k :: 0 <= k < |s| ==> IsCleanChar(s[k])
    requires SingleSpaced(s)
    requires i < j ==> !IsWhitespace(s[i]) && !IsWhitespace(s[j - 1])
    ensures IsClean(s[i..j])
  {
    SliceSingleSpaced(s, i, j);
    assert forall k :: 0 <= k < j - i ==> s[i..j][k] == s[i + k];
  }

  lemma SliceSingleSpaced(s: seq<char>, i: nat, j: nat)
    requires i <= j <= |s|
    requires SingleSpaced(s)
    ensures SingleSpaced(s[i..j])
  {
    var r := s[i..j];
    forall k, l | 0 <= k < l < |r| && l == k + 1
      ensures !(r[k] == ' ' && r[l] == ' ')
    {
      assert r[k] == s[i + k] && r[l] == s[i + l];
    }
  }

  // ---------------------------------------------------------------------
  // Properties of the steps
  // ---------------------------------------------------------------------

  /** Lower-casing leaves a string without capitals (ASCII or the two special ones) unchanged. */
  lemma {:induction false} ToLowerKeepsLower(s: seq<char>)
    requires forall k :: 0 <= k < |s| ==> !IsUpper(s[k]) && s[k] != '\U{212A}' && s[k] != '\U{0130}'
    ensures ToLower(s) == s
  {
    if s != [] {
      ToLowerKeepsLower(s[1..]);
    }
  }

  /** FindCloser stops at the first closer when no line terminator precedes it. */
  lemma {:induction false} FindCloserFirst(y: seq<char>, closer: char, z: seq<char>)
    requires IsCloser(closer)
    requires forall k :: 0 <= k < |y| ==> y[k] != closer && !IsLineTerminator(y[k])
    ensures FindCloser(y + [closer] + z, closer) == Some(|y|)
  {
    if y != [] {
      assert (y + [closer] + z)[1..] == y[1..] + [closer] + z;
      FindCloserFirst(y[1..], closer, z);
    }
  }

  /** Text before the first opener passes through bracket removal untouched. */
  lemma {:induction false} StripBracketsPrefix(x: seq<char>, z: seq<char>)
    requires forall k :: 0 <= k < |x| ==> !IsOpener(x[k])
    ensures StripBrackets(x + z) == x + StripBrackets(z)
  {
    if x != [] {
      var s := x + z;
      assert s[0] == x[0] && s[1..] == x[1..] + z;
      assert StripBrackets(s) == [s[0]] + StripBrackets(s[1..]);
      StripBracketsPrefix(x[1..], z);
      assert x == [x[0]] + x[1..];
    } else {
      assert x + z == z;
    }
  }

  /** A string without openers is unchanged by bracket removal. */
  lemma StripBracketsNoOpener(s: seq<char>)
    requires forall k :: 0 <= k < |s| ==> !IsOpener(s[k])
    ensures StripBrackets(s) == s
  {
    StripBracketsPrefix(s, []);
    assert s + [] == s;
  }

  /** Non-greedy deletion: an opener goes together with the FIRST matching
      closer after it, and whatever follows that closer, further closers
      included, is scanned afresh. */
  lemma StripBracketsGroup(opener: char, y: seq<char>, z: seq<char>)
    requires IsOpener(opener)
    requires forall k :: 0 <= k < |y| ==> y[k] != CloserOf(opener) && !IsLineTerminator(y[k])
    ensures StripBrackets([opener] + y + [CloserOf(opener)] + z) == StripBrackets(z)
  {
    var s := [opener] + y + [CloserOf(opener)] + z;
    assert s[1..] == y + [CloserOf(opener)] + z;
    FindCloserFirst(y, CloserOf(opener), z);
    assert s[|y| + 2..] == z;
  }

  /** An opener whose every matching closer lies beyond a line terminator is
      not deleted by step 2 (step 3 then removes it as a special character). */
  lemma StripBracketsUnmatched(opener: char, y: seq<char>)
    requires IsOpener(opener)
    requires forall k :: 0 <= k < |y| && y[k] == CloserOf(opener) ==>
               exists m :: 0 <= m < k && IsLineTerminator(y[m])
    ensures StripBrackets([opener] + y) == [opener] + StripBrackets(y)
  {
    var s := [opener] + y;
    assert s[1..] == y;
    if FindCloser(y, CloserOf(opener)).Some? {
      assert false;
    }
  }

  /** Step 3 keeps a string made only of word characters and white space. */
  lemma {:induction false} RemoveSpecialKeeps(s: seq<char>)
    requires forall k :: 0 <= k < |s| ==> IsWordChar(s[k]) || IsWhitespace(s[k])
    ensures RemoveSpecial(s) == s
  {
    if s != [] {
      RemoveSpecialKeeps(s[1..]);
    }
  }

  /** Step 4 keeps a string whose only white space is single spaces. */
  lemma {:induction false} CollapseKeepsSingleSpaces(s: seq<char>)
    requires forall k :: 0 <= k < |s| && IsWhitespace(s[k]) ==> s[k] == ' '
    requires SingleSpaced(s)
    ensures CollapseWhitespace(s) == s
    decreases |s|
  {
    if s != [] {
      var c, t := s[0], s[1..];
      SingleSpacedTail(s);
      CollapseKeepsSingleSpaces(t);
      if IsWhitespace(c) {
        SkipSingleSpace(s);
        CollapseAtSpace(s);
      } else {
        assert s == [c] + t;
        CollapseAtWord(c, t);
      }
    }
  }

  /** In a single-spaced string, a leading space is the whole leading run. */
  lemma SkipSingleSpace(s: seq<char>)
    requires s != [] && IsWhitespace(s[0])
    requires forall k :: 0 <= k < |s| && IsWhitespace(s[k]) ==> s[k] == ' '
    requires SingleSpaced(s)
    ensures s[0] == ' ' && SkipWhitespace(s) == s[1..]
  {
    var t := s[1..];
    if t != [] {
      assert !(s[0] == ' ' && s[1] == ' ');
      assert !IsWhitespace(t[0]);
    }
    assert SkipWhitespace(t) == t;
  }

  lemma SingleSpacedTail(s: seq<char>)
    requires s != [] && SingleSpaced(s)
    ensures SingleSpaced(s[1..])
  {
    var t := s[1..];
    forall i, j | 0 <= i < j < |t| && j == i + 1
      ensures !(t[i] == ' ' && t[j] == ' ')
    {
      assert t[i] == s[i + 1] && t[j] == s[j + 1];
    }
  }

  /** Step 5 keeps a string that neither starts nor ends with white space. */
  lemma TrimKeeps(s: seq<char>)
    requires s != [] ==> !IsWhitespace(s[0]) && !IsWhitespace(s[|s| - 1])
    ensures Trim(s) == s
  {
  }

  /** Step 3 works character by character, so it keeps the order of what it keeps. */
  lemma {:induction false} RemoveSpecialAppend(x: seq<char>, y: seq<char>)
    ensures RemoveSpecial(x + y) == RemoveSpecial(x) + RemoveSpecial(y)
  {
    if x == [] {
      assert x + y == y;
    } else {
      assert (x + y)[1..] == x[1..] + y;
      RemoveSpecialAppend(x[1..], y);
    }
  }

  /** A string of white space is skipped entirely. */
  lemma {:induction false} SkipAllWhitespace(w: seq<char>)
    requires forall k :: 0 <= k < |w| ==> IsWhitespace(w[k])
    ensures SkipWhitespace(w) == []
  {
    if w != [] {
      SkipAllWhitespace(w[1..]);
    }
  }

  /** When `x` is not all white space, skipping the leading white space of
      `x + t` only touches `x`. */
  lemma {:induction false} SkipAppend(x: seq<char>, t: seq<char>)
    requires SkipWhitespace(x) != []
    ensures SkipWhitespace(x + t) == SkipWhitespace(x) + t
  {
    assert x != [];
    if IsWhitespace(x[0]) {
      assert (x + t)[1..] == x[1..] + t;
      SkipAppend(x[1..], t);
    }
  }

  /** A white-space run before a string that does not start with white space
      is skipped exactly. */
  lemma {:induction false} SkipRun(w: seq<char>, y: seq<char>)
    requires forall k :: 0 <= k < |w| ==> IsWhitespace(w[k])
    requires y != [] ==> !IsWhitespace(y[0])
    ensures SkipWhitespace(w + y) == y
  {
    if w == [] {
      assert w + y == y;
    } else {
      assert (w + y)[1..] == w[1..] + y;
      SkipRun(w[1..], y);
    }
  }

  /** Step 4 replaces a white-space run between two parts by exactly one
      space and collapses the parts on their own: word boundaries are kept. */
  lemma {:induction false} CollapseRun(x: seq<char>, w: seq<char>, y: seq<char>)
    requires x != [] ==> !IsWhitespace(x[|x| - 1])
    requires w != [] && forall k :: 0 <= k < |w| ==> IsWhitespace(w[k])
    requires y != [] ==> !IsWhitespace(y[0])
    ensures CollapseWhitespace(x + w + y) == CollapseWhitespace(x) + [' '] + CollapseWhitespace(y)
    decreases |x|, 1
  {
    if x == [] {
      CollapseRunAtStart(x, w, y);
    } else if IsWhitespace(x[0]) {
      CollapseRunAfterSpace(x, w, y);
    } else {
      CollapseRunAfterWord(x, w, y);
    }
  }

  /** CollapseRun when `x` is empty. */
  lemma CollapseRunAtStart(x: seq<char>, w: seq<char>, y: seq<char>)
    requires x == []
    requires w != [] && forall k :: 0 <= k < |w| ==> IsWhitespace(w[k])
    requires y != [] ==> !IsWhitespace(y[0])
    ensures CollapseWhitespace(x + w + y) == CollapseWhitespace(x) + [' '] + CollapseWhitespace(y)
  {
    CollapseLeadingRun(w, y);
    EmptyFront(x, w + y, CollapseWhitespace(x), [' '] + CollapseWhitespace(y));
    Associate(x, w, y);
    Associate(CollapseWhitespace(x), [' '], CollapseWhitespace(y));
  }

  /** A white-space run at the start becomes one space. */
  lemma CollapseLeadingRun(w: seq<char>, y: seq<char>)
    requires w != [] && forall k :: 0 <= k < |w| ==> IsWhitespace(w[k])
    requires y != [] ==> !IsWhitespace(y[0])
    ensures CollapseWhitespace(w + y) == [' '] + CollapseWhitespace(y)
  {
    SkipRun(w, y);
    CollapseAtSpace(w + y);
  }

  lemma EmptyFront(x: seq<char>, t: seq<char>, cx: seq<char>, u: seq<char>)
    requires x == [] && cx == []
    ensures x + t == t && cx + u == u
  {
  }

  /** CollapseRun when `x` starts with white space. */
  lemma {:induction false} CollapseRunAfterSpace(x: seq<char>, w: seq<char>, y: seq<char>)
    requires x != [] && IsWhitespace(x[0]) && !IsWhitespace(x[|x| - 1])
    requires w != [] && forall k :: 0 <= k < |w| ==> IsWhitespace(w[k])
    requires y != [] ==> !IsWhitespace(y[0])
    ensures CollapseWhitespace(x + w + y) == CollapseWhitespace(x) + [' '] + CollapseWhitespace(y)
    decreases |x|, 0
  {
    var rest := SkipKeepsLast(x);
    var wy := w + y;
    SkipAppend(x, wy);
    Associate(x, w, y);
    Associate(rest, w, y);
    CollapseAtSpace(x + wy);
    CollapseAtSpace(x);
    CollapseRun(rest, w, y);
    ConsRegroup(' ', CollapseWhitespace(rest), CollapseWhitespace(y));
  }

  /** Skipping the leading white space of a string that ends in a character
      that is not white space keeps that last character. */
  lemma SkipKeepsLast(x: seq<char>) returns (rest: seq<char>)
    requires x != [] && !IsWhitespace(x[|x| - 1])
    ensures rest == SkipWhitespace(x) && rest != [] && rest[|rest| - 1] == x[|x| - 1]
  {
    rest := SkipWhitespace(x);
  }

  /** CollapseRun when `x` starts with a character that is not white space. */
  lemma {:induction false} CollapseRunAfterWord(x: seq<char>, w: seq<char>, y: seq<char>)
    requires x != [] && !IsWhitespace(x[0]) && !IsWhitespace(x[|x| - 1])
    requires w != [] && forall k :: 0 <= k < |w| ==> IsWhitespace(w[k])
    requires y != [] ==> !IsWhitespace(y[0])
    ensures CollapseWhitespace(x + w + y) == CollapseWhitespace(x) + [' '] + CollapseWhitespace(y)
    decreases |x|, 0
  {
    var c, x1 := x[0], x[1..];
    assert x == [c] + x1 && x + w + y == [c] + (x1 + w + y);
    CollapseAtWord(c, x1 + w + y);
    CollapseAtWord(c, x1);
    CollapseRun(x1, w, y);
    ConsRegroup(c, CollapseWhitespace(x1), CollapseWhitespace(y));
  }

  /** Step 4 at a string that starts with white space. */
  lemma CollapseAtSpace(s: seq<char>)
    requires s != [] && IsWhitespace(s[0])
    ensures CollapseWhitespace(s) == [' '] + CollapseWhitespace(SkipWhitespace(s))
  {
  }

  /** Step 4 at a string that starts with a character that is not white space. */
  lemma CollapseAtWord(c: char, t: seq<char>)
    requires !IsWhitespace(c)
    ensures CollapseWhitespace([c] + t) == [c] + CollapseWhitespace(t)
  {
    assert ([c] + t)[0] == c && ([c] + t)[1..] == t;
  }

  lemma Associate(a: seq<char>, b: seq<char>, c: seq<char>)
    ensures a + b + c == a + (b + c)
  {
  }

  lemma ConsRegroup(c: char, a: seq<char>, b: seq<char>)
    ensures [c] + (a + [' '] + b) == ([c] + a) + [' '] + b
  {
  }

  /** Step 4 on a string with one more space at its end: the space either
      joins a final white-space run or becomes one space of its own. */
  lemma {:induction false} CollapseAppendSpace(v: seq<char>)
    ensures CollapseWhitespace(v + [' ']) == CollapseWhitespace(v) ||
            CollapseWhitespace(v + [' ']) == CollapseWhitespace(v) + [' ']
    decreases |v|
  {
    if v == [] {
      assert v + [' '] == [' '];
      SkipAllWhitespace([' ']);
      CollapseAtSpace([' ']);
    } else if IsWhitespace(v[0]) {
      var rest := SkipWhitespace(v);
      CollapseAtSpace(v);
      CollapseAtSpace(v + [' ']);
      if rest == [] {
        SkipAllWhitespace(v + [' ']);
      } else {
        SkipAppend(v, [' ']);
        CollapseAppendSpace(rest);
        ConsAppendSpace(' ', CollapseWhitespace(rest));
      }
    } else {
      var c, v1 := v[0], v[1..];
      assert v == [c] + v1 && v + [' '] == [c] + (v1 + [' ']);
      CollapseAtWord(c, v1 + [' ']);
      CollapseAtWord(c, v1);
      CollapseAppendSpace(v1);
      ConsAppendSpace(c, CollapseWhitespace(v1));
    }
  }

  lemma ConsAppendSpace(c: char, a: seq<char>)
    ensures [c] + (a + [' ']) == ([c] + a) + [' ']
  {
  }

  /** Step 5 ignores a space at the end. */
  lemma TrimAppendSpace(u: seq<char>)
    ensures Trim(u + [' ']) == Trim(u)
  {
    var t := SkipWhitespace(u);
    TrimIsTrimEndOfSkip(u);
    TrimIsTrimEndOfSkip(u + [' ']);
    if t == [] {
      SkipAllWhitespace(u + [' ']);
    } else {
      SkipAppend(u, [' ']);
      TrimEndSpace(t);
    }
  }

  lemma TrimIsTrimEndOfSkip(s: seq<char>)
    ensures Trim(s) == TrimEnd(SkipWhitespace(s))
  {
  }

  lemma TrimEndSpace(t: seq<char>)
    ensures TrimEnd(t + [' ']) == TrimEnd(t)
  {
    assert (t + [' '])[..|t|] == t;
  }

  /** Every result of cleanTitle is left unchanged by cleanTitle. */
  lemma CleanIsFixpoint(t: seq<char>)
    requires IsClean(t)
    ensures CleanTitle(t) == t
  {
    CleanHasNoCapitals(t);
    LaterStepsKeepClean(t);
  }

  /** Steps 2 to 5 leave a clean string as it is. */
  lemma LaterStepsKeepClean(t: seq<char>)
    requires IsClean(t)
    ensures Trim(CollapseWhitespace(RemoveSpecial(StripBrackets(t)))) == t
  {
    CleanHasNoOpeners(t);
    CleanHasNoSpecials(t);
    CleanHasSingleSpaces(t);
    TrimKeeps(t);
  }

  lemma CleanHasNoCapitals(t: seq<char>)
    requires IsClean(t)
    ensures ToLower(t) == t
  {
    ToLowerKeepsLower(t);
  }

  lemma CleanHasNoOpeners(t: seq<char>)
    requires IsClean(t)
    ensures StripBrackets(t) == t
  {
    StripBracketsNoOpener(t);
  }

  lemma CleanHasNoSpecials(t: seq<char>)
    requires IsClean(t)
    ensures RemoveSpecial(t) == t
  {
    RemoveSpecialKeeps(t);
  }

  lemma CleanHasSingleSpaces(t: seq<char>)
    requires IsClean(t)
    ensures CollapseWhitespace(t) == t
  {
    CollapseKeepsSingleSpaces(t);
  }

  /** cleanTitle is idempotent. */
  lemma CleanTitleIdempotent(title: seq<char>)
    ensures CleanTitle(CleanTitle(title)) == CleanTitle(title)
  {
    CleanTitleShape(title);
    CleanIsFixpoint(CleanTitle(title));
  }

  /** Lower-casing works character by character. */
  lemma {:induction false} ToLowerAppend(x: seq<char>, y: seq<char>)
    ensures ToLower(x + y) == ToLower(x) + ToLower(y)
  {
    if x == [] {
      assert x + y == y;
    } else {
      assert (x + y)[1..] == x[1..] + y;
      ToLowerAppend(x[1..], y);
    }
  }

  /** Lower-casing creates neither the given closer nor a line terminator. */
  lemma {:induction false} ToLowerKeepsOut(y: seq<char>, closer: char)
    requires IsCloser(closer)
    requires forall k :: 0 <= k < |y| ==> y[k] != closer && !IsLineTerminator(y[k])
    ensures forall k :: 0 <= k < |ToLower(y)| ==> ToLower(y)[k] != closer && !IsLineTerminator(ToLower(y)[k])
  {
    if y != [] {
      ToLowerKeepsOut(y[1..], closer);
    }
  }


  /** A title whose lower case is already clean is cleaned to its lower case. */
  lemma CleanOfLowered(x: seq<char>)
    requires IsClean(ToLower(x))
    ensures CleanTitle(x) == ToLower(x)
  {
    LaterStepsKeepClean(ToLower(x));
  }

  /** Lower-casing around separators that are their own lower case. */
  lemma LowerAround(x: seq<char>, p: seq<char>, y: seq<char>, q: seq<char>)
    requires ToLower(p) == p && ToLower(q) == q
    ensures ToLower(x + p + y + q) == ToLower(x) + p + ToLower(y) + q
  {
    ToLowerAppend(x, p);
    ToLowerAppend(x + p, y);
    ToLowerAppend(x + p + y, q);
  }

  /** A space and an opener before `y`, a closer after it: the same string
      read as `x` and a space followed by the group. */
  lemma Regroup(x: seq<char>, o: char, y: seq<char>, c: char)
    ensures x + [' ', o] + y + [c] == (x + [' ']) + ([o] + y + [c])
  {
  }

  /** A lone group is deleted entirely. */
  lemma StripLoneGroup(o: char, y: seq<char>)
    requires IsOpener(o)
    requires forall k :: 0 <= k < |y| ==> y[k] != CloserOf(o) && !IsLineTerminator(y[k])
    ensures StripBrackets([o] + y + [CloserOf(o)]) == []
  {
    StripBracketsGroup(o, y, []);
    assert [o] + y + [CloserOf(o)] + [] == [o] + y + [CloserOf(o)];
  }

  /** Step 2 on `x (y)`, `x [y]` or `x {y}`, for an `x` without openers and
      a `y` without the matching closer or a line terminator, leaves `x` and the space
      before the group. */
  lemma StripAnnotation(lx: seq<char>, o: char, ly: seq<char>)
    requires IsOpener(o)
    requires forall k :: 0 <= k < |lx| ==> !IsOpener(lx[k])
    requires forall k :: 0 <= k < |ly| ==> ly[k] != CloserOf(o) && !IsLineTerminator(ly[k])
    ensures StripBrackets((lx + [' ']) + ([o] + ly + [CloserOf(o)])) == lx + [' ']
  {
    var prefix, group := lx + [' '], [o] + ly + [CloserOf(o)];
    assert forall k :: 0 <= k < |prefix| ==> !IsOpener(prefix[k]) by {
      assert forall k :: 0 <= k < |lx| ==> prefix[k] == lx[k];
    }
    StripBracketsPrefix(prefix, group);
    StripLoneGroup(o, ly);
    assert prefix + [] == prefix;
  }

  /** cleanTitle deletes a trailing bracketed annotation: `x (y)`, `x [y]`
      and `x {y}` clean to what `x` cleans to, whenever the lower case of `x`
      holds no opener and `y` holds neither the matching closer nor a line
      terminator. (With an opener in `x` the group can start earlier:
      `a (b (c)` cleans to `a`, `a (b` to `a b`.) */
  lemma AnnotationDropped(x: seq<char>, o: char, y: seq<char>)
    requires IsOpener(o)
    requires forall k :: 0 <= k < |ToLower(x)| ==> !IsOpener(ToLower(x)[k])
    requires forall k :: 0 <= k < |y| ==> y[k] != CloserOf(o) && !IsLineTerminator(y[k])
    ensures CleanTitle(x + [' ', o] + y + [CloserOf(o)]) == CleanTitle(x)
  {
    var lx := ToLower(x);
    StrippedAnnotation(x, o, y);
    StripBracketsNoOpener(lx);
    TrailingSpaceIgnored(lx);
  }

  /** Steps 1 and 2 on `x (y)` leave the lower case of `x` and a space. */
  lemma StrippedAnnotation(x: seq<char>, o: char, y: seq<char>)
    requires IsOpener(o)
    requires forall k :: 0 <= k < |ToLower(x)| ==> !IsOpener(ToLower(x)[k])
    requires forall k :: 0 <= k < |y| ==> y[k] != CloserOf(o) && !IsLineTerminator(y[k])
    ensures StripBrackets(ToLower(x + [' ', o] + y + [CloserOf(o)])) == ToLower(x) + [' ']
  {
    LoweredAnnotation(x, o, y);
    StripAnnotation(ToLower(x), o, ToLower(y));
  }

  /** Step 1 on `x (y)`: the group's brackets and the space are kept, and the
      lower case of `y` still holds neither the closer nor a line terminator. */
  lemma LoweredAnnotation(x: seq<char>, o: char, y: seq<char>)
    requires IsOpener(o)
    requires forall k :: 0 <= k < |y| ==> y[k] != CloserOf(o) && !IsLineTerminator(y[k])
    ensures ToLower(x + [' ', o] + y + [CloserOf(o)]) ==
              (ToLower(x) + [' ']) + ([o] + ToLower(y) + [CloserOf(o)])
    ensures forall k :: 0 <= k < |ToLower(y)| ==>
              ToLower(y)[k] != CloserOf(o) && !IsLineTerminator(ToLower(y)[k])
  {
    ToLowerKeepsLower([' ', o]);
    ToLowerKeepsLower([CloserOf(o)]);
    LowerAround(x, [' ', o], y, [CloserOf(o)]);
    Regroup(ToLower(x), o, ToLower(y), CloserOf(o));
    ToLowerKeepsOut(y, CloserOf(o));
  }

  /** Steps 3 to 5 ignore a space at the end. */
  lemma TrailingSpaceIgnored(w: seq<char>)
    ensures Trim(CollapseWhitespace(RemoveSpecial(w + [' ']))) == Trim(CollapseWhitespace(RemoveSpecial(w)))
  {
    var v := RemoveSpecial(w);
    RemoveSpecialAppend(w, [' ']);
    assert RemoveSpecial([' ']) == [' '];
    CollapseAppendSpace(v);
    TrimAppendSpace(CollapseWhitespace(v));
  }

  // ---------------------------------------------------------------------
  // Worked example
  // ---------------------------------------------------------------------

  /** The clean shape, tested character by character from the left: a
      non-empty run of clean characters without a space at either end, where
      a space is always followed by a character that is not one. */
  predicate CleanWords(s: seq<char>) {
    |s| > 0 && IsCleanChar(s[0]) && s[0] != ' ' &&
    (|s| == 1 || if s[1] == ' ' then CleanWords(s[2..]) else CleanWords(s[1..]))
  }

  lemma {:induction false} CleanWordsIsClean(s: seq<char>)
    requires CleanWords(s)
    ensures IsClean(s) && s != []
  {
    if |s| > 1 {
      var n := if s[1] == ' ' then 2 else 1;
      var t := s[n..];
      CleanWordsIsClean(t);
      assert forall k :: n <= k < |s| ==> s[k] == t[k - n];
      forall i, j | 0 <= i < j < |s| && j == i + 1
        ensures !(s[i] == ' ' && s[j] == ' ')
      {
        if i >= n {
          assert s[i] == t[i - n] && s[j] == t[j - n];
        }
      }
    }
  }

  /** `Song (Live)` and `Song` both clean to `song`. */
  lemma LiveAnnotationExample()
    ensures CleanTitle("Song (Live)") == CleanTitle("Song") == "song"
  {
    SongCleansToSong();
    NoOpenerInSong();
    NoCloserInLive();
    AnnotationDropped("Song", '(', "Live");
    SplitSongLive();
  }

  lemma NoOpenerInSong()
    ensures forall k :: 0 <= k < |ToLower("Song")| ==> !IsOpener(ToLower("Song")[k])
  {
    assert ToLower("Song") == "song";
  }

  lemma NoCloserInLive()
    ensures forall k :: 0 <= k < |"Live"| ==> "Live"[k] != CloserOf('(') && !IsLineTerminator("Live"[k])
  {
  }

  lemma SplitSongLive()
    ensures "Song (Live)" == "Song" + [' ', '('] + "Live" + [CloserOf('(')]
  {
  }

  lemma SongCleansToSong()
    ensures ToLower("Song") == "song" && IsClean("song") && CleanTitle("Song") == "song"
  {
    assert ToLower("Song") == "song";
    CleanWordsIsClean("song");
    CleanOfLowered("Song");
  }
}

/** The parts of Python's `str` behaviour that the tunnel code relies on:
    `isspace`, `strip`, `split()` on whitespace, `split(sep)`, `sep.join`,
    the `in` operator on strings, `replace`, `splitlines` and `int()` on a
    decimal literal. Each follows CPython's result so that the tunnel
    logic built on them can be read line by line against the code; the
    differences (literals with underscores or non-ASCII digits, the text
    of exception messages) are named where they arise. */
module PyText {
  import opened Wrappers

  type String = seq<char>

  // ---------------------------------------------------------------------
  // Character classes

  /** `c.isspace()`: the ASCII whitespace and separator controls plus the
      Unicode space characters. */
  predicate IsSpace(c: char) {
    c == ' ' || ('\t' <= c <= '\r') || ('\U{1c}' <= c <= '\U{1f}')
    || c == '\U{85}' || c == '\U{a0}' || c == '\U{1680}'
    || ('\U{2000}' <= c <= '\U{200a}') || c == '\U{2028}' || c == '\U{2029}'
    || c == '\U{202f}' || c == '\U{205f}' || c == '\U{3000}'
  }

  /** The characters at which `str.splitlines` breaks a line. */
  predicate IsLineBreak(c: char) {
    c == '\n' || c == '\r' || c == '\U{0b}' || c == '\U{0c}'
    || c == '\U{1c}' || c == '\U{1d}' || c == '\U{1e}'
    || c == '\U{85}' || c == '\U{2028}' || c == '\U{2029}'
  }

  predicate IsDigit(c: char) {
    '0' <= c <= '9'
  }

  predicate AllSpace(s: String) {
    forall i :: 0 <= i < |s| ==> IsSpace(s[i])
  }

  predicate NoSpace(s: String) {
    forall i :: 0 <= i < |s| ==> !IsSpace(s[i])
  }

  predicate NoLineBreak(s: String) {
    forall i :: 0 <= i < |s| ==> !IsLineBreak(s[i])
  }

  predicate AllDigits(s: String) {
    forall i :: 0 <= i < |s| ==> IsDigit(s[i])
  }

  // ---------------------------------------------------------------------
  // strip()

  /** `s.lstrip()`: the suffix of `s` left after its leading whitespace. */
  function StripLeft(s: String): (r: String)
    ensures |r| <= |s| && r == s[|s| - |r|..]
    ensures forall i :: 0 <= i < |s| - |r| ==> IsSpace(s[i])
    ensures r == [] || !IsSpace(r[0])
    decreases |s|
  {
    if s != [] && IsSpace(s[0]) then StripLeft(s[1..]) else s
  }

  /** `s.rstrip()`: the prefix of `s` left before its trailing whitespace. */
  function StripRight(s: String): (r: String)
    ensures |r| <= |s| && r == s[..|r|]
    ensures forall i :: |r| <= i < |s| ==> IsSpace(s[i])
    ensures r == [] || !IsSpace(r[|r| - 1])
    decreases |s|
  {
    if s != [] && IsSpace(s[|s| - 1]) then StripRight(s[..|s| - 1]) else s
  }

  /** `s.strip()`. */
  function Strip(s: String): String {
    StripRight(StripLeft(s))
  }

  /** The result of `s.strip()` starts and ends with a non-space. */
  lemma {:induction false} StripEnds(s: String)
    ensures Strip(s) == [] || (!IsSpace(Strip(s)[0]) && !IsSpace(Strip(s)[|Strip(s)| - 1]))
  {
    var l := StripLeft(s);
    var r := StripRight(l);
    if r != [] {
      assert r[0] == l[0];
    }
  }

  /** A string is its stripped form with whitespace on either side: the
      whitespace that `lstrip` removes before it, and the whitespace that
      `rstrip` then removes after it. */
  lemma StripPadding(s: String)
    ensures var w1, w2 := s[..|s| - |StripLeft(s)|], StripLeft(s)[|Strip(s)|..];
      AllSpace(w1) && AllSpace(w2) && s == w1 + Strip(s) + w2
  {
    var l := StripLeft(s);
    var r := StripRight(l);
    StripLeftSplit(s);
    StripRightSplit(l);
    var w1, w2 := s[..|s| - |l|], l[|r|..];
    Associative(w1, r, w2);
  }

  lemma Associative(a: String, b: String, c: String)
    ensures a + (b + c) == a + b + c
  {
  }

  /** `s` is the whitespace `lstrip` removes followed by what it keeps. */
  lemma StripLeftSplit(s: String)
    ensures var w := s[..|s| - |StripLeft(s)|]; AllSpace(w) && s == w + StripLeft(s)
  {
    var l := StripLeft(s);
    var w := s[..|s| - |l|];
    forall k | 0 <= k < |w| ensures IsSpace(w[k]) {
      assert w[k] == s[k];
    }
    assert s == w + s[|s| - |l|..];
  }

  /** `s` is what `rstrip` keeps followed by the whitespace it removes. */
  lemma StripRightSplit(s: String)
    ensures var w := s[|StripRight(s)|..]; AllSpace(w) && s == StripRight(s) + w
  {
    var r := StripRight(s);
    var w := s[|r|..];
    forall k | 0 <= k < |w| ensures IsSpace(w[k]) {
      assert w[k] == s[|r| + k];
    }
    assert s == s[..|r|] + w;
  }

  /** Stripping a word padded with whitespace gives the word back. */
  lemma {:induction false} StripPadded(w1: String, t: String, w2: String)
    requires AllSpace(w1) && AllSpace(w2)
    requires t != [] && !IsSpace(t[0]) && !IsSpace(t[|t| - 1])
    ensures Strip(w1 + t + w2) == t
  {
    assert w1 + t + w2 == w1 + (t + w2);
    assert (t + w2)[0] == t[0];
    StripLeftPadded(w1, t + w2);
    StripRightPadded(t, w2);
  }

  /** Only a string that strips to `t` is `t` padded with whitespace. */
  lemma StripNotPadded(s: String, t: String)
    requires t != [] && !IsSpace(t[0]) && !IsSpace(t[|t| - 1])
    requires Strip(s) != t
    ensures forall w1, w2 :: AllSpace(w1) && AllSpace(w2) ==> s != w1 + t + w2
  {
    forall w1, w2 | AllSpace(w1) && AllSpace(w2)
      ensures s != w1 + t + w2
    {
      StripPadded(w1, t, w2);
    }
  }

  /** A string strips to a word exactly when it is that word padded with
      whitespace. */
  lemma StripIff(s: String, t: String)
    requires t != [] && !IsSpace(t[0]) && !IsSpace(t[|t| - 1])
    ensures Strip(s) == t <==> exists w1, w2 :: AllSpace(w1) && AllSpace(w2) && s == w1 + t + w2
  {
    if Strip(s) == t {
      StripPadding(s);
      var w1, w2 := s[..|s| - |StripLeft(s)|], StripLeft(s)[|t|..];
      assert AllSpace(w1) && AllSpace(w2) && s == w1 + t + w2;
    } else {
      StripNotPadded(s, t);
    }
  }

  lemma {:induction false} StripLeftPadded(w: String, t: String)
    requires AllSpace(w)
    requires t != [] && !IsSpace(t[0])
    ensures StripLeft(w + t) == t
    decreases |w|
  {
    if w != [] {
      assert (w + t)[0] == w[0] && IsSpace(w[0]);
      assert (w + t)[1..] == w[1..] + t;
      assert AllSpace(w[1..]) by {
        forall k | 0 <= k < |w| - 1 ensures IsSpace(w[1..][k]) {
          assert w[1..][k] == w[k + 1];
        }
      }
      StripLeftPadded(w[1..], t);
    } else {
      assert w + t == t;
    }
  }

  lemma {:induction false} StripRightPadded(t: String, w: String)
    requires AllSpace(w)
    requires t != [] && !IsSpace(t[|t| - 1])
    ensures StripRight(t + w) == t
    decreases |w|
  {
    if w != [] {
      assert (t + w)[|t + w| - 1] == w[|w| - 1] && IsSpace(w[|w| - 1]);
      assert (t + w)[..|t + w| - 1] == t + w[..|w| - 1];
      StripRightPadded(t, w[..|w| - 1]);
    } else {
      assert t + w == t;
    }
  }

  // ---------------------------------------------------------------------
  // split() with no separator

  /** The length of the maximal run of non-whitespace at the start of `s`. */
  function WordLength(s: String): (n: nat)
    ensures n <= |s| && NoSpace(s[..n])
    ensures n < |s| ==> IsSpace(s[n])
    ensures s != [] && !IsSpace(s[0]) ==> n >= 1
    decreases |s|
  {
    if s == [] || IsSpace(s[0]) then 0 else 1 + WordLength(s[1..])
  }

  /** `s.split()`: the maximal runs of non-whitespace, in order. */
  function Tokens(s: String): (r: seq<String>)
    ensures forall k :: 0 <= k < |r| ==> r[k] != [] && NoSpace(r[k])
    decreases |s|
  {
    if s == [] then []
    else if IsSpace(s[0]) then Tokens(s[1..])
    else
      var n := WordLength(s);
      [s[..n]] + Tokens(s[n..])
  }

  lemma {:induction false} WordLengthBeforeSpace(x: String, z: String)
    requires z != [] && IsSpace(z[0])
    ensures WordLength(x + z) == WordLength(x)
    decreases |x|
  {
    if x != [] {
      assert (x + z)[0] == x[0];
      assert (x + z)[1..] == x[1..] + z;
      WordLengthBeforeSpace(x[1..], z);
    } else {
      assert x + z == z;
    }
  }

  /** A whitespace character separates the tokens on its two sides. */
  lemma {:induction false} TokensAroundSpace(x: String, c: char, y: String)
    requires IsSpace(c)
    ensures Tokens(x + [c] + y) == Tokens(x) + Tokens(y)
    decreases |x|
  {
    var s := x + [c] + y;
    if x == [] {
      assert s[1..] == y;
    } else if IsSpace(x[0]) {
      assert s[1..] == x[1..] + [c] + y;
      TokensAroundSpace(x[1..], c, y);
    } else {
      WordLengthBeforeSpace(x, [c] + y);
      assert s == x + ([c] + y);
      var n := WordLength(x);
      assert s[..n] == x[..n];
      assert s[n..] == x[n..] + [c] + y;
      TokensAroundSpace(x[n..], c, y);
    }
  }

  lemma {:induction false} TokensOfSpace(w: String)
    requires AllSpace(w)
    ensures Tokens(w) == []
    decreases |w|
  {
    if w != [] {
      TokensOfSpace(w[1..]);
    }
  }

  /** Whitespace after the last token adds no token. */
  lemma {:induction false} TokensTrailingSpace(x: String, w: String)
    requires AllSpace(w)
    ensures Tokens(x + w) == Tokens(x)
  {
    if w == [] {
      assert x + w == x;
    } else {
      assert x + w == x + [w[0]] + w[1..];
      TokensAroundSpace(x, w[0], w[1..]);
      TokensOfSpace(w[1..]);
    }
  }

  lemma {:induction false} TokensLeadingSpace(w: String, x: String)
    requires AllSpace(w)
    ensures Tokens(w + x) == Tokens(x)
    decreases |w|
  {
    if w != [] {
      assert (w + x)[1..] == w[1..] + x;
      TokensLeadingSpace(w[1..], x);
    } else {
      assert w + x == x;
    }
  }

  /** `s.strip().split() == s.split()`. */
  lemma {:induction false} TokensOfStrip(s: String)
    ensures Tokens(Strip(s)) == Tokens(s)
  {
    TokensOfStripLeft(s);
    TokensOfStripRight(StripLeft(s));
  }

  lemma {:induction false} TokensOfStripLeft(s: String)
    ensures Tokens(StripLeft(s)) == Tokens(s)
  {
    var l := StripLeft(s);
    var w := s[..|s| - |l|];
    assert s == w + l;
    TokensLeadingSpace(w, l);
  }

  lemma {:induction false} TokensOfStripRight(s: String)
    ensures Tokens(StripRight(s)) == Tokens(s)
  {
    var r := StripRight(s);
    var w := s[|r|..];
    assert s == r + w;
    TokensTrailingSpace(r, w);
  }

  /** A word followed only by whitespace is a single token. */
  lemma {:induction false} TokensOfWord(d: String, w: String)
    requires d != [] && NoSpace(d) && AllSpace(w)
    ensures Tokens(d + w) == [d]
  {
    assert WordLength(d) == |d|;
    var s := d + w;
    if w != [] {
      WordLengthBeforeSpace(d, w);
    } else {
      assert s == d;
    }
    assert s[..|d|] == d;
    assert s[|d|..] == w;
    TokensOfSpace(w);
  }

  /** `s.strip().split()[-1]`: the last whitespace-separated token, or an
      `IndexError` when there is none. */
  function LastToken(s: String): Result<String, PyError> {
    var tokens := Tokens(Strip(s));
    if tokens == [] then Failure(IndexError("list index out of range"))
    else Success(tokens[|tokens| - 1])
  }

  /** Stripping first changes nothing: the result is the last token of
      `s.split()`, an `IndexError` exactly when `s` is all whitespace. */
  lemma {:induction false} LastTokenOf(s: String)
    ensures LastToken(s).Failure? <==> Tokens(s) == []
    ensures LastToken(s).Failure? ==> LastToken(s).error == IndexError("list index out of range")
    ensures LastToken(s).Success? ==>
      LastToken(s).value == Tokens(s)[|Tokens(s)| - 1]
      && LastToken(s).value != [] && NoSpace(LastToken(s).value)
  {
    TokensOfStrip(s);
  }

  /** A word that ends the text after a whitespace character, whatever
      precedes it, is the last token. */
  lemma {:induction false} LastTokenOfWord(prefix: String, c: char, d: String, w: String)
    requires IsSpace(c) && AllSpace(w)
    requires d != [] && NoSpace(d)
    ensures LastToken(prefix + [c] + d + w) == Success(d)
  {
    TokensOfWord(d, w);
    assert prefix + [c] + d + w == prefix + [c] + (d + w);
    TokensAroundSpace(prefix, c, d + w);
    LastTokenOf(prefix + [c] + d + w);
  }

  // ---------------------------------------------------------------------
  // Substring search: `sub in s`, `s.find(sub)`

  predicate OccursAt(s: String, pat: String, i: int) {
    0 <= i && i + |pat| <= |s| && s[i..i + |pat|] == pat
  }

  /** The first index `i >= k` at which `pat` occurs in `s`, if any. */
  function FindFrom(s: String, pat: String, k: nat): (r: Option<nat>)
    ensures r.Some? ==> k <= r.value && OccursAt(s, pat, r.value)
    ensures r.Some? ==> forall i :: k <= i < r.value ==> !OccursAt(s, pat, i)
    ensures r.None? ==> forall i :: k <= i <= |s| ==> !OccursAt(s, pat, i)
    decreases |s| + 1 - k
  {
    if k + |pat| > |s| then None
    else if s[k..k + |pat|] == pat then Some(k)
    else FindFrom(s, pat, k + 1)
  }

  /** `s.find(pat)`: the lowest index at which `pat` occurs, if any. */
  function Find(s: String, pat: String): (r: Option<nat>)
    ensures r.Some? ==> OccursAt(s, pat, r.value)
    ensures r.Some? ==> forall i :: 0 <= i < r.value ==> !OccursAt(s, pat, i)
    ensures r.None? ==> forall i :: 0 <= i <= |s| ==> !OccursAt(s, pat, i)
  {
    FindFrom(s, pat, 0)
  }

  /** `pat in s`. */
  predicate Contains(s: String, pat: String) {
    Find(s, pat).Some?
  }

  /** The `in` operator holds exactly when `pat` occurs somewhere in `s`. */
  lemma {:induction false} ContainsIff(s: String, pat: String)
    ensures Contains(s, pat) <==> exists i :: OccursAt(s, pat, i)
  {
    if exists i :: OccursAt(s, pat, i) {
      var i :| OccursAt(s, pat, i);
      assert i <= |s|;
    }
  }

  /** A string contains every one of its infixes. */
  lemma {:induction false} ContainsInfix(x: String, pat: String, y: String)
    ensures Contains(x + pat + y, pat)
  {
    assert OccursAt(x + pat + y, pat, |x|);
    ContainsIff(x + pat + y, pat);
  }

  /** A string cannot contain a pattern one of whose characters it lacks. */
  lemma {:induction false} MissingChar(s: String, pat: String, c: char)
    requires c in pat && c !in s
    ensures !Contains(s, pat)
  {
    var k :| 0 <= k < |pat| && pat[k] == c;
    forall i | 0 <= i && i + |pat| <= |s|
      ensures !OccursAt(s, pat, i)
    {
      assert s[i..i + |pat|][k] == s[i + k] != c;
    }
    ContainsIff(s, pat);
  }

  // ---------------------------------------------------------------------
  // split(sep) and sep.join(parts)

  /** `s.split(sep)` for a non-empty separator: the pieces between
      successive non-overlapping occurrences, scanned left to right. */
  function SplitOn(s: String, sep: String): (r: seq<String>)
    requires sep != []
    ensures |r| >= 1
    ensures |r| == 1 <==> !Contains(s, sep)
    ensures r[0] <= s && (|r[0]| == |s| || OccursAt(s, sep, |r[0]|))
    ensures forall k :: 0 <= k < |r| ==> !Contains(r[k], sep)
    decreases |s|
  {
    match Find(s, sep)
    case None => [s]
    case Some(i) =>
      NoneBeforeFirst(s, sep, i);
      [s[..i]] + SplitOn(s[i + |sep|..], sep)
  }

  /** The text before the first occurrence of `sep` does not contain it. */
  lemma {:induction false} NoneBeforeFirst(s: String, sep: String, i: nat)
    requires sep != [] && i <= |s|
    requires forall j :: 0 <= j < i ==> !OccursAt(s, sep, j)
    ensures !Contains(s[..i], sep)
  {
    var p := s[..i];
    forall j | 0 <= j
      ensures OccursAt(p, sep, j) ==> OccursAt(s, sep, j) && j < i
    {
      if j + |sep| <= |p| {
        assert p[j..j + |sep|] == s[j..j + |sep|];
      }
    }
  }

  /** `sep.join(parts)`. */
  function Join(parts: seq<String>, sep: String): String
    decreases |parts|
  {
    if parts == [] then []
    else if |parts| == 1 then parts[0]
    else parts[0] + sep + Join(parts[1..], sep)
  }

  /** Joining the pieces of a split with the same separator restores the
      string: `sep.join(s.split(sep)) == s`. */
  lemma {:induction false} JoinSplitOn(s: String, sep: String)
    requires sep != []
    ensures Join(SplitOn(s, sep), sep) == s
    decreases |s|
  {
    match Find(s, sep)
    case None =>
    case Some(i) =>
      var rest := s[i + |sep|..];
      JoinSplitOnStep(s, sep, sep, i);
      JoinSplitOn(rest, sep);
      Slices(s, i, i + |sep|);
  }

  /** A string is its three slices around two cut points. */
  lemma Slices(s: String, i: nat, j: nat)
    requires i <= j <= |s|
    ensures s == s[..i] + s[i..j] + s[j..]
  {
  }

  /** `s.split(sep)[1]`: the text between the first and the second
      occurrence of `sep` (or the end of `s`); an `IndexError` when `sep`
      does not occur. */
  function SecondField(s: String, sep: String): (r: Result<String, PyError>)
    requires sep != []
    ensures r.Success? <==> Contains(s, sep)
    ensures r.Success? ==> !Contains(r.value, sep)
    ensures r.Success? ==>
      var rest := s[Find(s, sep).value + |sep|..];
      r.value <= rest && (|r.value| == |rest| || OccursAt(rest, sep, |r.value|))
  {
    var parts := SplitOn(s, sep);
    if |parts| < 2 then Failure(IndexError("list index out of range"))
    else
      var i := Find(s, sep).value;
      assert parts[1] == SplitOn(s[i + |sep|..], sep)[0];
      Success(parts[1])
  }

  /** `s.split(sep)[1]` when the first occurrence of `sep` is at `i` and
      the text after it holds no further occurrence: all of that text. */
  lemma {:induction false} SecondFieldAt(s: String, sep: String, i: nat)
    requires sep != [] && OccursAt(s, sep, i)
    requires forall j :: 0 <= j < i ==> !OccursAt(s, sep, j)
    requires !Contains(s[i + |sep|..], sep)
    ensures SecondField(s, sep) == Success(s[i + |sep|..])
  {
    assert Find(s, sep) == Some(i);
    var rest := s[i + |sep|..];
    assert SplitOn(rest, sep) == [rest];
    assert SplitOn(s, sep) == [s[..i]] + SplitOn(rest, sep);
  }

  /** `(a + c + b).split(c)[1] == b` for a single-character separator `c`
      that occurs in neither `a` nor `b`. */
  lemma {:induction false} SecondFieldOfChar(a: String, c: char, b: String)
    requires c !in a && c !in b
    ensures SecondField(a + [c] + b, [c]) == Success(b)
  {
    var s := a + [c] + b;
    assert OccursAt(s, [c], |a|) by { assert s[|a|..|a| + 1] == [c]; }
    forall j | 0 <= j < |a|
      ensures !OccursAt(s, [c], j)
    {
      assert s[j..j + 1] == [a[j]];
    }
    assert s[|a| + 1..] == b;
    MissingChar(b, [c], c);
    SecondFieldAt(s, [c], |a|);
  }

  // ---------------------------------------------------------------------
  // replace(target, repl)

  /** `s.replace("", repl)`: `repl` before every character and at the end. */
  function Interleave(s: String, repl: String): String
    decreases |s|
  {
    if s == [] then repl else repl + [s[0]] + Interleave(s[1..], repl)
  }

  /** Interleaving adds `|repl|` characters per character and one more
      `repl` at the end. */
  lemma {:induction false} InterleaveLength(s: String, repl: String)
    ensures |Interleave(s, repl)| == |s| + (|s| + 1) * |repl|
    decreases |s|
  {
    if s != [] {
      InterleaveLength(s[1..], repl);
    }
  }

  /** `s.replace(target, repl)`. For a non-empty `target` CPython scans
      left to right and replaces each non-overlapping occurrence, which is
      `repl.join(s.split(target))`; an empty `target` matches before every
      character and at the end. */
  function Replace(s: String, target: String, repl: String): String {
    if target == [] then Interleave(s, repl) else Join(SplitOn(s, target), repl)
  }

  /** The scan that `Replace` performs: the text before the first
      occurrence is kept, the occurrence becomes `repl`, and the rest is
      replaced in the same way. */
  lemma {:induction false} ReplaceStep(s: String, target: String, repl: String, i: nat)
    requires target != [] && Find(s, target) == Some(i)
    ensures i + |target| <= |s|
    ensures Replace(s, target, repl) == s[..i] + repl + Replace(s[i + |target|..], target, repl)
  {
    JoinSplitOnStep(s, target, repl, i);
  }

  lemma {:induction false} JoinSplitOnStep(s: String, sep: String, joiner: String, i: nat)
    requires sep != [] && Find(s, sep) == Some(i)
    ensures i + |sep| <= |s|
    ensures Join(SplitOn(s, sep), joiner) == s[..i] + joiner + Join(SplitOn(s[i + |sep|..], sep), joiner)
  {
    assert OccursAt(s, sep, i);
    var pre := s[..i];
    var tail := SplitOn(s[i + |sep|..], sep);
    var parts := SplitOn(s, sep);
    assert parts == [pre] + tail;
    assert |tail| >= 1 && |parts| >= 2 && parts[0] == pre && parts[1..] == tail;
    assert Join(parts, joiner) == pre + joiner + Join(tail, joiner);
  }

  /** Replacing a string by itself changes nothing. */
  lemma {:induction false} ReplaceBySelf(s: String, target: String)
    ensures Replace(s, target, target) == s
  {
    if target == [] {
      InterleaveEmpty(s);
    } else {
      JoinSplitOn(s, target);
    }
  }

  lemma {:induction false} InterleaveEmpty(s: String)
    ensures Interleave(s, []) == s
    decreases |s|
  {
    if s != [] {
      InterleaveEmpty(s[1..]);
      assert [s[0]] + s[1..] == s;
    }
  }

  /** With no occurrence of `target` there is nothing to replace. */
  lemma {:induction false} ReplaceAbsent(s: String, target: String, repl: String)
    requires target != [] && !Contains(s, target)
    ensures Replace(s, target, repl) == s
  {
  }

  /** The first occurrence of `.<name>` in `<stem>.<name>` is the one at
      the end when the stem does not contain it. */
  lemma {:induction false} FindDottedSuffix(stem: String, name: String)
    requires '.' !in name
    requires !Contains(stem, "." + name)
    ensures Find(stem + "." + name, "." + name) == Some(|stem|)
  {
    var ext := "." + name;
    var path := stem + ext;
    ContainsIff(stem, ext);
    forall i | 0 <= i < |stem|
      ensures !OccursAt(path, ext, i)
    {
      if i + |ext| <= |stem| {
        assert path[i..i + |ext|] == stem[i..i + |ext|];
        assert !OccursAt(stem, ext, i);
      } else {
        var k := |stem| - i;
        assert 1 <= k < |ext| && ext[k] == name[k - 1];
        assert name[k - 1] in name;
        assert path[|stem|] == '.';
        if i + |ext| <= |path| {
          assert path[i..i + |ext|][k] == path[|stem|];
        }
      }
    }
    assert path[|stem|..] == ext;
    assert OccursAt(path, ext, |stem|);
    assert path == stem + "." + name;
  }

  /** Replacing the suffix `.<name>` of `<stem>.<name>`, when the stem does
      not contain it, swaps that suffix for `repl` and keeps the stem. */
  lemma {:induction false} ReplaceDottedSuffix(stem: String, name: String, repl: String)
    requires '.' !in name
    requires !Contains(stem, "." + name)
    ensures Replace(stem + "." + name, "." + name, repl) == stem + repl
  {
    var ext := "." + name;
    var path := stem + "." + name;
    FindDottedSuffix(stem, name);
    ReplaceStep(path, ext, repl, |stem|);
    assert path[..|stem|] == stem;
    assert path[|stem| + |ext|..] == [];
    assert Replace([], ext, repl) == [];
  }

  /** Joining pieces free of `pat` with a non-empty separator that shares
      no character with `pat` cannot create an occurrence of `pat`. */
  lemma {:induction false} JoinAvoids(parts: seq<String>, sep: String, pat: String)
    requires pat != [] && sep != []
    requires forall k :: 0 <= k < |parts| ==> !Contains(parts[k], pat)
    requires forall c :: c in sep ==> c !in pat
    ensures !Contains(Join(parts, sep), pat)
    decreases |parts|
  {
    if parts == [] {
      assert !OccursAt([], pat, 0);
    } else if |parts| > 1 {
      var p0 := parts[0];
      var rest := Join(parts[1..], sep);
      JoinAvoids(parts[1..], sep, pat);
      var s := p0 + sep + rest;
      forall i | 0 <= i && i + |pat| <= |s|
        ensures !OccursAt(s, pat, i)
      {
        JoinAvoidsAt(p0, sep, rest, pat, i);
      }
      ContainsIff(s, pat);
    }
  }

  /** No occurrence of `pat` starts at `i` in `p0 + sep + rest` when
      neither side contains it and the separator shares no character with
      it: an occurrence would lie in one side or cover a separator
      character. */
  lemma {:induction false} JoinAvoidsAt(p0: String, sep: String, rest: String, pat: String, i: nat)
    requires pat != [] && sep != []
    requires !Contains(p0, pat) && !Contains(rest, pat)
    requires forall c :: c in sep ==> c !in pat
    requires i + |pat| <= |p0 + sep + rest|
    ensures !OccursAt(p0 + sep + rest, pat, i)
  {
    var s := p0 + sep + rest;
    if i + |pat| <= |p0| {
      ContainsIff(p0, pat);
      var a, b := s[i..i + |pat|], p0[i..i + |pat|];
      forall k | 0 <= k < |pat| ensures a[k] == b[k] {
        assert a[k] == s[i + k] && b[k] == p0[i + k];
      }
      assert !OccursAt(p0, pat, i);
    } else if i >= |p0| + |sep| {
      ContainsIff(rest, pat);
      var j := i - |p0| - |sep|;
      var a, b := s[i..i + |pat|], rest[j..j + |pat|];
      forall k | 0 <= k < |pat| ensures a[k] == b[k] {
        assert a[k] == s[i + k] && b[k] == rest[j + k];
      }
      assert !OccursAt(rest, pat, j);
    } else {
      var q := if i >= |p0| then i else |p0|;
      assert s[q] == sep[q - |p0|] && sep[q - |p0|] in sep;
      assert s[i..i + |pat|][q - i] == s[q];
      assert pat[q - i] in pat;
    }
  }

  /** After `s.replace(target, repl)` with a non-empty replacement that
      shares no character with `target`, no `target` is left. */
  lemma {:induction false} ReplaceRemoves(s: String, target: String, repl: String)
    requires target != [] && repl != []
    requires forall c :: c in repl ==> c !in target
    ensures !Contains(Replace(s, target, repl), target)
  {
    JoinAvoids(SplitOn(s, target), repl, target);
  }

  /** Replacing a one-character target by nothing removes every copy of
      that character. */
  lemma {:induction false} ReplaceDropsChar(s: String, c: char)
    ensures c !in Replace(s, [c], [])
    decreases |s|
  {
    match Find(s, [c])
    case None =>
      ReplaceAbsent(s, [c], []);
      forall k | 0 <= k < |s|
        ensures s[k] != c
      {
        assert !OccursAt(s, [c], k);
        assert s[k..k + 1] == [s[k]];
      }
    case Some(i) =>
      ReplaceStep(s, [c], [], i);
      ReplaceDropsChar(s[i + 1..], c);
      forall k | 0 <= k < i
        ensures s[..i][k] != c
      {
        assert !OccursAt(s, [c], k);
        assert s[k..k + 1] == [s[k]];
      }
  }

  /** Replacing in a text without `c` by a replacement without `c` cannot
      bring `c` in. */
  lemma {:induction false} ReplaceAvoidsChar(s: String, target: String, repl: String, c: char)
    requires target != [] && c !in s && c !in repl
    ensures c !in Replace(s, target, repl)
    decreases |s|
  {
    match Find(s, target)
    case None =>
      ReplaceAbsent(s, target, repl);
    case Some(i) =>
      ReplaceStep(s, target, repl, i);
      var rest := s[i + |target|..];
      forall k | 0 <= k < |rest|
        ensures rest[k] != c
      {
        assert rest[k] == s[i + |target| + k];
      }
      ReplaceAvoidsChar(rest, target, repl, c);
      forall k | 0 <= k < i
        ensures s[..i][k] != c
      {
        assert s[..i][k] == s[k];
      }
  }

  /** An occurrence of `pat` that no occurrence of `target` overlaps
      survives `s.replace(target, repl)`: the scan copies it unchanged. */
  lemma {:induction false} ReplaceKeeps(s: String, target: String, repl: String, pat: String, p: nat)
    requires target != [] && OccursAt(s, pat, p)
    requires forall j :: OccursAt(s, target, j) ==> j + |target| <= p || p + |pat| <= j
    ensures Contains(Replace(s, target, repl), pat)
    decreases |s|
  {
    match Find(s, target)
    case None =>
      ReplaceAbsent(s, target, repl);
      ContainsIff(s, pat);
    case Some(i) =>
      if p + |pat| <= i {
        ReplaceKeepsBefore(s, target, repl, pat, p, i);
      } else {
        var rest := s[i + |target|..];
        var q := p - i - |target|;
        assert OccursAt(rest, pat, q) by {
          assert rest[q..q + |pat|] == s[p..p + |pat|];
        }
        forall j | OccursAt(rest, target, j)
          ensures j + |target| <= q || q + |pat| <= j
        {
          var j' := j + i + |target|;
          assert s[j'..j' + |target|] == rest[j..j + |target|];
          assert OccursAt(s, target, j');
        }
        ReplaceKeeps(rest, target, repl, pat, q);
        ReplaceStep(s, target, repl, i);
        ContainsRight(s[..i] + repl, Replace(rest, target, repl), pat);
      }
  }

  /** An occurrence before the first `target` is in the text the scan
      keeps. */
  lemma {:induction false} ReplaceKeepsBefore(s: String, target: String, repl: String, pat: String, p: nat, i: nat)
    requires target != [] && Find(s, target) == Some(i)
    requires OccursAt(s, pat, p) && p + |pat| <= i
    ensures Contains(Replace(s, target, repl), pat)
  {
    ReplaceStep(s, target, repl, i);
    assert OccursAt(s[..i], pat, p) by {
      assert s[..i][p..p + |pat|] == s[p..p + |pat|];
    }
    ContainsIff(s[..i], pat);
    ContainsLeft(s[..i], repl, pat);
    ContainsLeft(s[..i] + repl, Replace(s[i + |target|..], target, repl), pat);
  }

  /** What the left part contains, the whole contains. */
  lemma {:induction false} ContainsLeft(x: String, y: String, pat: String)
    requires Contains(x, pat)
    ensures Contains(x + y, pat)
  {
    ContainsIff(x, pat);
    var k :| OccursAt(x, pat, k);
    assert (x + y)[k..k + |pat|] == x[k..k + |pat|];
    assert OccursAt(x + y, pat, k);
    ContainsIff(x + y, pat);
  }

  /** What the right part contains, the whole contains. */
  lemma {:induction false} ContainsRight(x: String, y: String, pat: String)
    requires Contains(y, pat)
    ensures Contains(x + y, pat)
  {
    ContainsIff(y, pat);
    var k :| OccursAt(y, pat, k);
    assert (x + y)[|x| + k..|x| + k + |pat|] == y[k..k + |pat|];
    assert OccursAt(x + y, pat, |x| + k);
    ContainsIff(x + y, pat);
  }

  /** Occurrences of two patterns cannot overlap when the last character
      of `pat` is missing from `target`, and either the last character of
      `target` is missing from `pat` or `target` neither starts inside
      `pat`'s first character nor lies within `pat`. */
  lemma {:induction false} OccurrencesApart(s: String, pat: String, target: String, p: nat, j: nat)
    requires pat != [] && target != []
    requires OccursAt(s, pat, p) && OccursAt(s, target, j)
    requires pat[|pat| - 1] !in target
    requires target[|target| - 1] !in pat || (pat[0] !in target && !Contains(pat, target))
    ensures j + |target| <= p || p + |pat| <= j
  {
    forall k | j <= k < j + |target|
      ensures s[k] in target
    {
      assert s[j..j + |target|][k - j] == s[k];
    }
    forall k | p <= k < p + |pat|
      ensures s[k] in pat
    {
      assert s[p..p + |pat|][k - p] == s[k];
    }
    assert s[p + |pat| - 1] == pat[|pat| - 1] by {
      assert s[p..p + |pat|][|pat| - 1] == s[p + |pat| - 1];
    }
    assert s[j + |target| - 1] == target[|target| - 1] by {
      assert s[j..j + |target|][|target| - 1] == s[j + |target| - 1];
    }
    assert s[p] == pat[0] by {
      assert s[p..p + |pat|][0] == s[p];
    }
    assert p < j && j + |target| <= p + |pat| ==> OccursAt(pat, target, j - p) by {
      if p < j && j + |target| <= p + |pat| {
        forall k | 0 <= k < |target|
          ensures pat[j - p + k] == target[k]
        {
          assert s[p..p + |pat|][j - p + k] == s[j + k];
          assert s[j..j + |target|][k] == s[j + k];
        }
        assert pat[j - p..j - p + |target|] == target;
      }
    }
    ContainsIff(pat, target);
  }

  /** An occurrence of `pat` survives replacing a `target` whose
      occurrences cannot overlap it. */
  lemma {:induction false} ReplaceKeepsApart(s: String, target: String, repl: String, pat: String)
    requires pat != [] && target != [] && Contains(s, pat)
    requires pat[|pat| - 1] !in target
    requires target[|target| - 1] !in pat || (pat[0] !in target && !Contains(pat, target))
    ensures Contains(Replace(s, target, repl), pat)
  {
    ContainsIff(s, pat);
    var p :| OccursAt(s, pat, p);
    forall j | OccursAt(s, target, j)
      ensures j + |target| <= p || p + |pat| <= j
    {
      OccurrencesApart(s, pat, target, p, j);
    }
    ReplaceKeeps(s, target, repl, pat, p);
  }

  // ---------------------------------------------------------------------
  // splitlines()

  /** The length of the first line of `s`, up to its line break. */
  function LineLength(s: String): (n: nat)
    ensures n <= |s| && NoLineBreak(s[..n])
    ensures n < |s| ==> IsLineBreak(s[n])
    decreases |s|
  {
    if s == [] || IsLineBreak(s[0]) then 0 else 1 + LineLength(s[1..])
  }

  /** `s.splitlines()`: the lines of `s` without their breaks; `\r\n` is a
      single break and a final break does not start an empty line. */
  function SplitLines(s: String): (r: seq<String>)
    ensures forall k :: 0 <= k < |r| ==> NoLineBreak(r[k])
    decreases |s|
  {
    if s == [] then []
    else
      var n := LineLength(s);
      if n == |s| then [s]
      else if s[n] == '\r' && n + 1 < |s| && s[n + 1] == '\n' then [s[..n]] + SplitLines(s[n + 2..])
      else [s[..n]] + SplitLines(s[n + 1..])
  }

  /** The text of a file whose lines are `lines`, each ended by `\n`. */
  function Terminated(lines: seq<String>): String
    decreases |lines|
  {
    if lines == [] then [] else lines[0] + "\n" + Terminated(lines[1..])
  }

  /** `for line in f` over a file opened for reading text, whose content
      is `text`: every line keeps its `\n`, and a last line without one
      comes out as it is. No line is empty. */
  function FileLines(text: String): (r: seq<String>)
    ensures forall k :: 0 <= k < |r| ==> r[k] != []
    decreases |text|
  {
    if text == [] then []
    else
      match Find(text, "\n")
      case None => [text]
      case Some(i) => [text[..i + 1]] + FileLines(text[i + 1..])
  }

  /** The first `\n` of `l + "\n" + rest` is the one after `l` when `l`
      has none. */
  lemma {:induction false} FindLineBreak(l: String, rest: String)
    requires '\n' !in l
    ensures Find(l + "\n" + rest, "\n") == Some(|l|)
  {
    var text := l + "\n" + rest;
    forall j | 0 <= j < |l|
      ensures !OccursAt(text, "\n", j)
    {
      assert text[j..j + 1][0] == text[j] == l[j];
      assert l[j] in l;
    }
    assert text[|l|..|l| + 1] == "\n";
    assert OccursAt(text, "\n", |l|);
  }

  lemma {:induction false} LineLengthOfLine(l: String, rest: String)
    requires NoLineBreak(l)
    ensures LineLength(l + "\n" + rest) == |l|
    decreases |l|
  {
    if l != [] {
      assert (l + "\n" + rest)[1..] == l[1..] + "\n" + rest;
      LineLengthOfLine(l[1..], rest);
    }
  }

  /** Reading back a file written line by line gives the same lines:
      splitting is the inverse of terminating each line with `\n`. */
  lemma {:induction false} SplitLinesOfTerminated(lines: seq<String>)
    requires forall k :: 0 <= k < |lines| ==> NoLineBreak(lines[k])
    ensures SplitLines(Terminated(lines)) == lines
    decreases |lines|
  {
    if lines != [] {
      var l := lines[0];
      var rest := Terminated(lines[1..]);
      var s := l + "\n" + rest;
      LineLengthOfLine(l, rest);
      assert s[..|l|] == l;
      assert s[|l|] == '\n';
      assert s[|l| + 1..] == rest;
      SplitLinesOfTerminated(lines[1..]);
    }
  }

  // ---------------------------------------------------------------------
  // int() on a base-10 literal, and str() of an integer

  function DigitValue(c: char): nat
    requires IsDigit(c)
  {
    (c as int - '0' as int) as nat
  }

  function DigitChar(d: nat): (c: char)
    requires d < 10
    ensures IsDigit(c) && DigitValue(c) == d
  {
    ('0' as int + d) as char
  }

  /** The value of a string of decimal digits, most significant first. */
  function DigitsValue(s: String): nat
    requires AllDigits(s)
    decreases |s|
  {
    if s == [] then 0 else DigitsValue(s[..|s| - 1]) * 10 + DigitValue(s[|s| - 1])
  }

  /** `str(n)` for a natural number. */
  function Decimal(n: nat): (r: String)
    ensures r != [] && AllDigits(r)
    decreases n
  {
    if n < 10 then [DigitChar(n)] else Decimal(n / 10) + [DigitChar(n % 10)]
  }

  /** `str(i)`. */
  function IntToString(i: int): String {
    if i < 0 then "-" + Decimal(-i) else Decimal(i)
  }

  /** `int(s)`: surrounding whitespace is ignored, then an optional sign
      and at least one ASCII decimal digit; anything else is a
      `ValueError`, here `None`. Underscores between digits and non-ASCII
      digits, which `int()` also accepts, are not modelled. */
  function ParseInt(s: String): (r: Option<int>)
    ensures r.Some? ==> Strip(s) != [] && (IsDigit(Strip(s)[0]) || Strip(s)[0] in "+-")
  {
    ParseLiteral(Strip(s))
  }

  /** `int(t)` once the whitespace is stripped: an optional sign and at
      least one decimal digit. */
  function ParseLiteral(t: String): (r: Option<int>)
    ensures r.Some? ==> t != [] && (IsDigit(t[0]) || t[0] in "+-")
  {
    if t != [] && (t[0] == '-' || t[0] == '+') then
      if |t| > 1 && AllDigits(t[1..]) then
        Some(if t[0] == '-' then -(DigitsValue(t[1..]) as int) else DigitsValue(t[1..]))
      else None
    else if t != [] && AllDigits(t) then Some(DigitsValue(t))
    else None
  }

  lemma {:induction false} DigitsValueOfDecimal(n: nat)
    ensures DigitsValue(Decimal(n)) == n
    decreases n
  {
    if n >= 10 {
      var d := Decimal(n);
      assert d[..|d| - 1] == Decimal(n / 10);
      DigitsValueOfDecimal(n / 10);
    }
  }

  /** `int(d)` for a string of digits. */
  lemma {:induction false} ParseIntOfDigits(d: String)
    requires d != [] && AllDigits(d)
    ensures ParseInt(d) == Some(DigitsValue(d))
  {
    assert !IsSpace(d[0]) && !IsSpace(d[|d| - 1]);
    assert StripLeft(d) == d;
    assert Strip(d) == d;
  }

  /** `int("-" + d)` for a string of digits. */
  lemma {:induction false} ParseIntOfNegatedDigits(d: String)
    requires d != [] && AllDigits(d)
    ensures ParseInt("-" + d) == Some(-(DigitsValue(d) as int))
  {
    var m := "-" + d;
    assert m[1..] == d && m[0] == '-';
    assert !IsSpace(m[0]) && m[|m| - 1] == d[|d| - 1];
    StripPadded([], m, []);
    assert [] + m + [] == m;
  }

  /** `int(str(i)) == i`. */
  lemma {:induction false} ParseIntOfString(i: int)
    ensures ParseInt(IntToString(i)) == Some(i)
  {
    var m: nat := if i < 0 then -i else i;
    DigitsValueOfDecimal(m);
    if i < 0 {
      ParseIntOfNegatedDigits(Decimal(m));
    } else {
      ParseIntOfDigits(Decimal(m));
    }
  }

  /** `int(w1 + str(i) + w2) == i` for any whitespace padding. */
  lemma {:induction false} ParseIntPadded(w1: String, i: int, w2: String)
    requires AllSpace(w1) && AllSpace(w2)
    ensures ParseInt(w1 + IntToString(i) + w2) == Some(i)
  {
    var t := IntToString(i);
    IntToStringEnds(i);
    StripPadded(w1, t, w2);
    StripPadded([], t, []);
    assert [] + t + [] == t;
    ParseIntOfString(i);
    assert ParseInt(t) == ParseLiteral(t);
  }

  /** `str(i)` is not empty and neither starts nor ends with whitespace. */
  lemma {:induction false} IntToStringEnds(i: int)
    ensures var t := IntToString(i); t != [] && !IsSpace(t[0]) && !IsSpace(t[|t| - 1])
  {
    var m: nat := if i < 0 then -i else i;
    var d := Decimal(m);
    assert IsDigit(d[0]) && IsDigit(d[|d| - 1]);
  }

  /** `str(i)` consists of decimal digits and at most a leading minus. */
  lemma {:induction false} IntToStringChars(i: int)
    ensures forall c :: c in IntToString(i) ==> IsDigit(c) || c == '-'
  {
    var m: nat := if i < 0 then -i else i;
    assert AllDigits(Decimal(m));
  }
}

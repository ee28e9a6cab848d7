/**
 * The Rust `str` operations the directive scanner relies on, over strings
 * of Unicode scalar values: `trim_start`, `trim_end`, `trim`,
 * `starts_with`, `find` and `split_ascii_whitespace`.
 */
module StrUtil {
  import opened Wrappers

  /**
   * Rust's `char::is_whitespace`: the Unicode `White_Space` property, used
   * by `trim_start`, `trim_end` and `trim`.
   */
  predicate IsWhitespace(c: char) {
    ('\t' <= c <= '\r') || c == ' ' || c == '\U{85}' || c == '\U{A0}'
    || c == '\U{1680}' || ('\U{2000}' <= c <= '\U{200A}') || c == '\U{2028}'
    || c == '\U{2029}' || c == '\U{202F}' || c == '\U{205F}' || c == '\U{3000}'
  }

  /**
   * Rust's `u8::is_ascii_whitespace`: space, tab, line feed, form feed and
   * carriage return (not the vertical tab).
   */
  predicate IsAsciiWhitespace(c: char) {
    c == ' ' || c == '\t' || c == '\n' || c == '\U{C}' || c == '\r'
  }

  lemma AsciiWhitespaceIsWhitespace(c: char)
    requires IsAsciiWhitespace(c)
    ensures IsWhitespace(c)
  {
  }

  predicate AllWhitespace(w: string) {
    forall i | 0 <= i < |w| :: IsWhitespace(w[i])
  }

  /** True when `s` does not begin with a whitespace character. */
  predicate NoLeadingWhitespace(s: string) {
    s == [] || !IsWhitespace(s[0])
  }

  /** True when `s` does not end with a whitespace character. */
  predicate NoTrailingWhitespace(s: string) {
    s == [] || !IsWhitespace(s[|s| - 1])
  }

  /** `s.starts_with(p)`. */
  predicate StartsWith(s: string, p: string) {
    |p| <= |s| && s[..|p|] == p
  }

  /** The number of whitespace characters that start `s`. */
  function LeadingWhitespaceLen(s: string): (n: nat)
    ensures n <= |s|
    ensures forall i | 0 <= i < n :: IsWhitespace(s[i])
    ensures n < |s| ==> !IsWhitespace(s[n])
    decreases |s|
  {
    if s != [] && IsWhitespace(s[0]) then 1 + LeadingWhitespaceLen(s[1..]) else 0
  }

  /** The number of whitespace characters that end `s`. */
  function TrailingWhitespaceLen(s: string): (n: nat)
    ensures n <= |s|
    ensures forall i | |s| - n <= i < |s| :: IsWhitespace(s[i])
    ensures n < |s| ==> !IsWhitespace(s[|s| - n - 1])
    decreases |s|
  {
    if s != [] && IsWhitespace(s[|s| - 1]) then 1 + TrailingWhitespaceLen(s[..|s| - 1]) else 0
  }

  /**
   * `s.trim_start()`: the suffix of `s` left once every leading whitespace
   * character is removed.
   */
  function TrimStart(s: string): (r: string)
    ensures NoLeadingWhitespace(r)
  {
    s[LeadingWhitespaceLen(s)..]
  }

  /**
   * `s.trim_end()`: the prefix of `s` left once every trailing whitespace
   * character is removed.
   */
  function TrimEnd(s: string): (r: string)
    ensures NoTrailingWhitespace(r)
  {
    s[..|s| - TrailingWhitespaceLen(s)]
  }

  /** `s.trim()`: whitespace removed at both ends. */
  function Trim(s: string): (r: string)
    ensures NoLeadingWhitespace(r) && NoTrailingWhitespace(r)
  {
    var t := TrimStart(s);
    var r := TrimEnd(t);
    assert r != [] ==> r[0] == t[0];
    r
  }

  lemma {:induction false} LeadingWhitespaceLenUnique(s: string, n: nat)
    requires n <= |s|
    requires forall i | 0 <= i < n :: IsWhitespace(s[i])
    requires n < |s| ==> !IsWhitespace(s[n])
    ensures LeadingWhitespaceLen(s) == n
    decreases n
  {
    if n > 0 {
      LeadingWhitespaceLenUnique(s[1..], n - 1);
    }
  }

  lemma {:induction false} TrailingWhitespaceLenUnique(s: string, n: nat)
    requires n <= |s|
    requires forall i | |s| - n <= i < |s| :: IsWhitespace(s[i])
    requires n < |s| ==> !IsWhitespace(s[|s| - n - 1])
    ensures TrailingWhitespaceLen(s) == n
    decreases n
  {
    if n > 0 {
      var t := s[..|s| - 1];
      assert forall i | |t| - (n - 1) <= i < |t| :: t[i] == s[i];
      TrailingWhitespaceLenUnique(t, n - 1);
    }
  }

  /**
   * Whitespace in front of a string that does not itself begin with
   * whitespace is exactly what `trim_start` removes.
   */
  lemma TrimStartOfPadded(w: string, x: string)
    requires AllWhitespace(w) && NoLeadingWhitespace(x)
    ensures TrimStart(w + x) == x
  {
    var s := w + x;
    assert forall i | 0 <= i < |w| :: s[i] == w[i];
    LeadingWhitespaceLenUnique(s, |w|);
    assert s[|w|..] == x;
  }

  /** Whitespace behind a string is exactly what `trim_end` removes. */
  lemma TrimEndOfPadded(x: string, w: string)
    requires AllWhitespace(w) && NoTrailingWhitespace(x)
    ensures TrimEnd(x + w) == x
  {
    var s := x + w;
    assert forall i | |s| - |w| <= i < |s| :: s[i] == w[i - |x|];
    TrailingWhitespaceLenUnique(s, |w|);
    assert s[..|x|] == x;
  }

  /** A string with no whitespace at either end is its own trim. */
  lemma TrimUnchanged(s: string)
    requires NoLeadingWhitespace(s) && NoTrailingWhitespace(s)
    ensures Trim(s) == s
  {
    LeadingWhitespaceLenUnique(s, 0);
    assert TrimStart(s) == s;
    TrailingWhitespaceLenUnique(s, 0);
  }

  /** `s.find(c)`: the index of the first occurrence of `c`, if any. */
  function Find(s: string, c: char): (r: Option<nat>)
    ensures r.None? <==> c !in s
    ensures r.Some? ==> r.value < |s| && s[r.value] == c && c !in s[..r.value]
    decreases |s|
  {
    if s == [] then None
    else if s[0] == c then Some(0)
    else match Find(s[1..], c)
      case None => None
      case Some(k) =>
        assert s[..k + 1] == [s[0]] + s[1..][..k];
        Some(k + 1)
  }

  /** `find` reports the first occurrence, whichever index that is. */
  lemma FindFirst(s: string, c: char, k: nat)
    requires k < |s| && s[k] == c
    requires forall i | 0 <= i < k :: s[i] != c
    ensures Find(s, c) == Some(k)
  {
    assert s[k] == c;
  }

  /** A word as `split_ascii_whitespace` yields it: non-empty, no ASCII whitespace. */
  predicate IsAsciiWord(w: string) {
    w != [] && forall i | 0 <= i < |w| :: !IsAsciiWhitespace(w[i])
  }

  /** The length of the run of non-ASCII-whitespace characters that starts `s`. */
  function WordLen(s: string): (n: nat)
    ensures n <= |s|
    ensures forall i | 0 <= i < n :: !IsAsciiWhitespace(s[i])
    ensures n < |s| ==> IsAsciiWhitespace(s[n])
    decreases |s|
  {
    if s == [] || IsAsciiWhitespace(s[0]) then 0 else 1 + WordLen(s[1..])
  }

  /**
   * `s.split_ascii_whitespace()`: the maximal runs of non-ASCII-whitespace
   * characters, in order; empty runs are dropped.
   */
  function SplitAsciiWhitespace(s: string): (r: seq<string>)
    ensures forall k | 0 <= k < |r| :: IsAsciiWord(r[k])
    decreases |s|
  {
    if s == [] then []
    else if IsAsciiWhitespace(s[0]) then SplitAsciiWhitespace(s[1..])
    else
      var n := WordLen(s);
      [s[..n]] + SplitAsciiWhitespace(s[n..])
  }

  /** The words joined with one space between each two. */
  function JoinWithSpaces(words: seq<string>): string
  {
    if words == [] then []
    else if |words| == 1 then words[0]
    else words[0] + " " + JoinWithSpaces(words[1..])
  }

  /** Leading ASCII whitespace never produces a word. */
  lemma {:induction false} SplitSkipsLeading(w: string, s: string)
    requires forall i | 0 <= i < |w| :: IsAsciiWhitespace(w[i])
    ensures SplitAsciiWhitespace(w + s) == SplitAsciiWhitespace(s)
    decreases |w|
  {
    if w != [] {
      assert (w + s)[1..] == w[1..] + s;
      SplitSkipsLeading(w[1..], s);
    } else {
      assert w + s == s;
    }
  }

  /** The length of a run that is followed by whitespace (or nothing) is the run. */
  lemma {:induction false} WordLenOfWord(w: string, rest: string)
    requires IsAsciiWord(w)
    requires rest == [] || IsAsciiWhitespace(rest[0])
    ensures WordLen(w + rest) == |w|
    decreases |w|
  {
    if |w| > 1 {
      assert (w + rest)[1..] == w[1..] + rest;
      WordLenOfWord(w[1..], rest);
    } else {
      assert (w + rest)[1..] == rest;
    }
  }

  /**
   * A word followed by a non-empty run of ASCII whitespace is the next word
   * of the split; with `SplitSkipsLeading` and `SplitFinalWord` this
   * describes the split of every string.
   */
  lemma SplitWordThenGap(w: string, g: string, s: string)
    requires IsAsciiWord(w)
    requires g != [] && forall i | 0 <= i < |g| :: IsAsciiWhitespace(g[i])
    ensures SplitAsciiWhitespace(w + g + s) == [w] + SplitAsciiWhitespace(s)
  {
    var t := w + g + s;
    assert t == w + (g + s);
    assert (g + s)[0] == g[0];
    WordLenOfWord(w, g + s);
    assert t[0] == w[0];
    assert t[..|w|] == w && t[|w|..] == g + s;
    SplitSkipsLeading(g, s);
  }

  /** A word that ends the string is its last word. */
  lemma SplitFinalWord(w: string)
    requires IsAsciiWord(w)
    ensures SplitAsciiWhitespace(w) == [w]
  {
    WordLenOfWord(w, []);
    assert w + [] == w;
    assert w[..|w|] == w && w[|w|..] == [];
  }

  /**
   * Splitting undoes joining: words joined with single spaces split back
   * into the same words, in order.
   */
  lemma {:induction false} SplitJoin(words: seq<string>)
    requires forall k | 0 <= k < |words| :: IsAsciiWord(words[k])
    ensures SplitAsciiWhitespace(JoinWithSpaces(words)) == words
    decreases |words|
  {
    if words == [] {
    } else {
      var w := words[0];
      var rest := if |words| == 1 then [] else " " + JoinWithSpaces(words[1..]);
      assert JoinWithSpaces(words) == w + rest;
      WordLenOfWord(w, rest);
      var s := w + rest;
      assert s[..|w|] == w && s[|w|..] == rest;
      if |words| == 1 {
        assert words == [w];
      } else {
        SplitJoin(words[1..]);
        SplitSkipsLeading(" ", JoinWithSpaces(words[1..]));
        assert words == [w] + words[1..];
      }
    }
  }
}

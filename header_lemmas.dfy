/**
 * Properties of the directive scanner: what a fixture's lines can and
 * cannot change in the loaded properties, which line wins, and how the
 * revision list is collected.
 */
module HeaderLemmas {
  import opened Wrappers
  import opened StrUtil
  import opened Header

  /** A non-empty run of directive word characters. */
  predicate IsWordToken(w: string) {
    w != [] && forall i | 0 <= i < |w| :: IsWordChar(w[i])
  }

  // ---------------------------------------------------------------------
  // Directive texts
  // ---------------------------------------------------------------------

  /** The word scan of a text made of a word token and a non-word tail. */
  lemma WordIdxOfToken(lead: string, w: string, tail: string)
    requires forall i | 0 <= i < |lead| :: IsAsciiWhitespace(lead[i])
    requires IsWordToken(w)
    requires tail == [] || !IsWordChar(tail[0])
    ensures WordIdx(lead + w + tail) ==
      (Some(|lead|), if tail == [] then None else Some(|lead| + |w|))
    ensures (lead + w + tail)[|lead|..|lead| + |w|] == w
  {
    var s := lead + w + tail;
    assert forall i | 0 <= i < |lead| :: s[i] == lead[i];
    assert s[|lead|] == w[0];
    AsciiSpaceLenUnique(s, |lead|);
    var t := s[|lead|..];
    assert t == w + tail;
    assert forall i | 0 <= i < |w| :: t[i] == w[i];
    assert tail != [] ==> t[|w|] == tail[0];
    WordCharLenUnique(t, |w|);
    assert s[|lead|..|lead| + |w|] == w;
  }

  /**
   * A fresh parser on a word followed by a non-word character: it
   * recognises the word when `ParseWord` does, and then continues just
   * past it; otherwise nothing changes.
   */
  lemma ParsedWord(word: string, rest: string)
    requires IsWordToken(word) && rest != [] && !IsWordChar(rest[0])
    ensures ParsedState(word + rest) ==
      if ParseWord(word).Some? then (ParseWord(word).value, rest) else (DummyDirective, word + rest)
  {
    assert word + rest == [] + word + rest;
    WordIdxOfToken([], word, rest);
    assert (word + rest)[|word|..] == rest;
  }

  /** The value reader on a space, a word token and a non-word tail. */
  lemma ValueAfterSpace(w: string, tail: string, negative: bool)
    requires IsWordToken(w) && (tail == [] || !IsWordChar(tail[0]))
    ensures WordValueToEndOf(" " + w + tail, negative) ==
      if negative then Fatal(UnexpectedNegative) else Ok(w)
    ensures WordValueOf(" " + w + tail, negative) ==
      if tail == [] then Fatal(ExpectedWordValue)
      else if negative then Fatal(UnexpectedNegative) else Ok(w)
  {
    WordIdxOfToken(" ", w, tail);
  }

  /** The two directive words with the space that follows them. */
  lemma LitSpace()
    ensures "evm-version" + " " == "evm-version "
    ensures "no-evm-version" + " " == "no-evm-version "
  {
  }

  /** Splits a directive text after its first word. */
  lemma SplitAfterWord(word: string, w: string, tail: string)
    ensures word + " " + w + tail == word + (" " + w + tail)
  {
  }

  /**
   * `evm-version <w>`, at the end of the line or followed by a non-word
   * character, stores `w`, replacing whatever was stored before.
   */
  lemma EvmVersionSetsValue<E>(props: TestProps<E>, w: string, tail: string)
    requires IsWordToken(w) && (tail == [] || !IsWordChar(tail[0]))
    ensures ApplyDirective(props, "evm-version " + w + tail) == Ok(props.(evmVersion := Some(w)))
  {
    LitSpace();
    SplitAfterWord("evm-version", w, tail);
    ParsedWord("evm-version", " " + w + tail);
    ValueAfterSpace(w, tail, false);
  }

  /** `no-evm-version <w>` is a usage error: the value directive is negated. */
  lemma NegatedEvmVersionFatal<E>(props: TestProps<E>, w: string, tail: string)
    requires IsWordToken(w) && (tail == [] || !IsWordChar(tail[0]))
    ensures ApplyDirective(props, "no-evm-version " + w + tail) == Fatal(UnexpectedNegative)
  {
    LitSpace();
    SplitAfterWord("no-evm-version", w, tail);
    ParsedWord("no-evm-version", " " + w + tail);
    ValueAfterSpace(w, tail, true);
  }

  /**
   * The colon form `evm-version: <w>` is not a different, unknown
   * directive: the word `evm-version` is recognised and the value reader
   * then finds `:` where a word should be, which is fatal.
   */
  lemma ColonFormFatal<E>(props: TestProps<E>, rest: string)
    ensures ApplyDirective(props, "evm-version:" + rest) == Fatal(ExpectedWordValue)
  {
    var tail := ":" + rest;
    assert "evm-version:" + rest == "evm-version" + tail;
    ParsedWord("evm-version", tail);
    AsciiSpaceLenUnique(tail, 0);
  }

  /** A first word other than `evm-version` or `no-evm-version` changes nothing. */
  lemma OtherWordIgnored<E>(props: TestProps<E>, w: string, tail: string)
    requires IsWordToken(w) && w != "evm-version" && w != "no-evm-version"
    requires tail == [] || !IsWordChar(tail[0])
    ensures ApplyDirective(props, w + tail) == Ok(props)
  {
    assert w + tail == [] + w + tail;
    WordIdxOfToken([], w, tail);
  }

  /**
   * As written, a value word that ends the line is rejected: on
   * `evm-version <w>` with nothing after `w`, the parser recognises the
   * directive and `word_value` then panics.
   */
  lemma FinalValueRejected(w: string)
    requires IsWordToken(w)
    ensures ParsedState("evm-version " + w) == (TestDirective(false, EvmVersion), " " + w)
    ensures WordValueOf(" " + w, false) == Fatal(ExpectedWordValue)
  {
    LitSpace();
    SplitAfterWord("evm-version", w, []);
    assert "evm-version " + w == "evm-version " + w + [];
    assert " " + w == " " + w + [];
    ParsedWord("evm-version", " " + w + []);
    ValueAfterSpace(w, [], false);
  }

  /**
   * The corrected value reader accepts a value that ends the line, and
   * agrees with the reader as written wherever that one succeeds.
   */
  lemma CorrectedReadsFinalValue(w: string, line: string, negative: bool)
    requires IsWordToken(w)
    ensures WordValueToEndOf(" " + w, false) == Ok(w)
    ensures WordValueOf(line, negative).Ok? ==> WordValueToEndOf(line, negative) == WordValueOf(line, negative)
  {
    assert " " + w == " " + w + [];
    WordIdxOfToken(" ", w, []);
  }

  // ---------------------------------------------------------------------
  // Loading
  // ---------------------------------------------------------------------

  /**
   * Loading starts from the defaults with the expected diagnostics filled
   * in, and the directive pass changes nothing but the EVM version: no
   * normalisation pairs, no flags set.
   */
  lemma LoadOnlySetsEvmVersion<E>(lines: seq<string>, cfg: Option<string>, expectedErrors: seq<E>)
    ensures LoadSpec(lines, cfg, expectedErrors).Ok? ==>
      var p := LoadSpec(lines, cfg, expectedErrors).value;
      p.expectedErrors == expectedErrors &&
      p.normalizeStdout == [] && p.normalizeStderr == [] &&
      !p.dontCheckCompilerStdout && !p.dontCheckCompilerStderr &&
      !p.compareOutputLinesBySubset
  {
  }

  /** Scanning `a + b` is scanning `a`, then `b` from where `a` left off. */
  lemma {:induction false} LoadFromAppend<E>(props: TestProps<E>, cfg: Option<string>, a: seq<string>, b: seq<string>)
    ensures LoadFrom(props, cfg, a + b) ==
      match LoadFrom(props, cfg, a)
      case Fatal(k) => Fatal(k)
      case Ok(next) => LoadFrom(next, cfg, b)
    decreases |a|
  {
    if a == [] {
      assert a + b == b;
    } else {
      assert (a + b)[0] == a[0] && (a + b)[1..] == a[1..] + b;
      match ScanLine(props, cfg, a[0])
      case Fatal(_) =>
      case Ok(next) => LoadFromAppend(next, cfg, a[1..], b);
    }
  }

  /**
   * A line that leaves the properties as they are: not a directive, scoped
   * to a revision other than `cfg`, or a directive whose word is not
   * recognised.
   */
  predicate InertLine(line: string, cfg: Option<string>) {
    match LineDirective(Comment, line)
    case Fatal(_) => false
    case Ok(None) => true
    case Ok(Some((revision, text))) => (revision.Some? && revision != cfg) || Recognized(text).None?
  }

  /** Deleting an inert line anywhere in the fixture changes nothing. */
  lemma InertLineIgnored<E>(a: seq<string>, line: string, b: seq<string>, cfg: Option<string>, expectedErrors: seq<E>)
    requires InertLine(line, cfg)
    ensures LoadSpec(a + [line] + b, cfg, expectedErrors) == LoadSpec(a + b, cfg, expectedErrors)
  {
    var p0 := TestProps<E>.New().(expectedErrors := expectedErrors);
    assert a + [line] + b == a + ([line] + b);
    LoadFromAppend(p0, cfg, a, [line] + b);
    LoadFromAppend(p0, cfg, a, b);
    match LoadFrom(p0, cfg, a)
    case Fatal(_) =>
    case Ok(q) =>
      assert ScanLine(q, cfg, line) == Ok(q);
      assert ([line] + b)[1..] == b;
  }

  /**
   * The last line that stores an EVM version decides it: a directive
   * line that applies to `cfg` and stores `w` leaves `w`, whatever the
   * earlier lines stored.
   */
  lemma LastEvmVersionWins<E>(a: seq<string>, line: string, cfg: Option<string>, expectedErrors: seq<E>,
                              revision: Option<string>, text: string, w: string)
    requires LineDirective(Comment, line) == Ok(Some((revision, text)))
    requires revision.None? || revision == cfg
    requires forall p: TestProps<E> :: ApplyDirective(p, text) == Ok(p.(evmVersion := Some(w)))
    ensures LoadSpec(a + [line], cfg, expectedErrors) ==
      match LoadSpec(a, cfg, expectedErrors)
      case Fatal(k) => Fatal(k)
      case Ok(p) => Ok(p.(evmVersion := Some(w)))
  {
    var p0 := TestProps<E>.New().(expectedErrors := expectedErrors);
    LoadFromAppend(p0, cfg, a, [line]);
    match LoadFrom(p0, cfg, a)
    case Fatal(_) =>
    case Ok(q) =>
      assert ScanLine(q, cfg, line) == Ok(q.(evmVersion := Some(w)));
      assert [line][1..] == [];
  }

  /** A line scoped to `rev` applies when `cfg` names `rev`. */
  lemma ScopedLineApplies<E>(props: TestProps<E>, line: string, rev: string, text: string)
    requires LineDirective(Comment, line) == Ok(Some((Some(rev), text)))
    ensures ScanLine(props, Some(rev), line) == ApplyDirective(props, text)
    ensures forall other | other != rev :: ScanLine(props, Some(other), line) == Ok(props)
    ensures ScanLine(props, None, line) == Ok(props)
  {
  }

  // ---------------------------------------------------------------------
  // Scenarios
  // ---------------------------------------------------------------------

  /**
   * A fixture whose one line is `//[rev] evm-version <w>` (for instance
   * `//[release] evm-version shanghai`) stores `w` when loaded for
   * revision `rev`, and leaves the EVM version unset for any other
   * revision or for none.
   */
  lemma ScopedEvmVersionLine<E>(expectedErrors: seq<E>, rev: string, w: string, tail: string, cfg: Option<string>)
    requires ']' !in rev && IsWordToken(w) && (tail == [] || !IsWordChar(tail[0]))
    ensures LoadSpec(["//[" + rev + "] evm-version " + w + tail], cfg, expectedErrors)
         == Ok(TestProps<E>.New().(expectedErrors := expectedErrors,
                                   evmVersion := if cfg == Some(rev) then Some(w) else None))
  {
    var line := "//[" + rev + "] evm-version " + w + tail;
    var text := EvmVersionText(w, tail);
    assert line == "//[" + rev + "]" + (" " + text);
    ScopedLineDirective(rev, text);
    var p0 := TestProps<E>.New().(expectedErrors := expectedErrors);
    EvmVersionSetsValue(p0, w, tail);
    SingleLine(p0, cfg, line, rev, text, w);
  }

  /** The directive text `evm-version <w><tail>`. */
  function EvmVersionText(w: string, tail: string): (text: string)
    ensures text == "evm-version " + w + tail
    ensures text != [] && !IsWhitespace(text[0]) && text[0] != '['
  {
    "evm-version " + w + tail
  }

  /** `//[rev] <text>` gives the revision and the text. */
  lemma ScopedLineDirective(rev: string, text: string)
    requires ']' !in rev && text != [] && !IsWhitespace(text[0])
    ensures LineDirective(Comment, "//[" + rev + "]" + (" " + text)) == Ok(Some((Some(rev), text)))
  {
    var rest := " " + text;
    assert "//[" + rev + "]" + rest == [] + Comment + [] + "[" + rev + "]" + rest;
    LineDirectiveScoped(Comment, [], [], rev, rest);
    TrimStartOfPadded(" ", text);
  }

  /** A one-line fixture whose line sets `w` within scope `rev`. */
  lemma SingleLine<E>(p0: TestProps<E>, cfg: Option<string>, line: string, rev: string, text: string, w: string)
    requires LineDirective(Comment, line) == Ok(Some((Some(rev), text)))
    requires ApplyDirective(p0, text) == Ok(p0.(evmVersion := Some(w)))
    ensures LoadFrom(p0, cfg, [line]) == Ok(if cfg == Some(rev) then p0.(evmVersion := Some(w)) else p0)
  {
    assert [line][1..] == [];
  }

  /**
   * A fixture whose one line is `// evm-version <w>` (for instance
   * `// evm-version paris`) stores `w`, whether `w` ends the line or a
   * non-word character follows it.
   */
  lemma UnscopedEvmVersionLine<E>(expectedErrors: seq<E>, w: string, tail: string, cfg: Option<string>)
    requires IsWordToken(w) && (tail == [] || !IsWordChar(tail[0]))
    ensures LoadSpec(["// evm-version " + w + tail], cfg, expectedErrors)
         == Ok(TestProps<E>.New().(expectedErrors := expectedErrors, evmVersion := Some(w)))
  {
    var p0 := TestProps<E>.New().(expectedErrors := expectedErrors);
    var text := EvmVersionText(w, tail);
    assert "// evm-version " + w + tail == "// " + text;
    UnscopedLineDirective(text);
    EvmVersionSetsValue(p0, w, tail);
    UnscopedSingleLine(p0, cfg, "// evm-version " + w + tail, text);
  }

  /** A one-line fixture whose line is an unscoped directive. */
  lemma UnscopedSingleLine<E>(p0: TestProps<E>, cfg: Option<string>, line: string, text: string)
    requires LineDirective(Comment, line) == Ok(Some((None, text)))
    ensures LoadFrom(p0, cfg, [line]) == ApplyDirective(p0, text)
  {
    assert [line][1..] == [];
  }

  /** `// <text>` gives the text and no revision. */
  lemma UnscopedLineDirective(text: string)
    requires text != [] && !IsWhitespace(text[0]) && text[0] != '['
    ensures LineDirective(Comment, "// " + text) == Ok(Some((None, text)))
  {
    assert "// " + text == [] + Comment + " " + text;
    LineDirectiveUnscoped(Comment, [], " ", text);
  }

  // ---------------------------------------------------------------------
  // Revisions
  // ---------------------------------------------------------------------

  /** Collecting over `a + b` is collecting over `a`, then over `b`. */
  lemma {:induction false} RevisionsFromAppend(revisions: seq<string>, a: seq<string>, b: seq<string>)
    ensures RevisionsFrom(revisions, a + b) ==
      match RevisionsFrom(revisions, a)
      case Fatal(k) => Fatal(k)
      case Ok(next) => RevisionsFrom(next, b)
    decreases |a|
  {
    if a == [] {
      assert a + b == b;
    } else {
      assert (a + b)[0] == a[0] && (a + b)[1..] == a[1..] + b;
      match LineDirective(Comment, Trim(a[0]))
      case Fatal(_) =>
      case Ok(None) => RevisionsFromAppend(revisions, a[1..], b);
      case Ok(Some((revision, line))) =>
        if revision.Some? || revisions != [] || !StartsWith(line, RevisionsPrefix) {
          RevisionsFromAppend(revisions, a[1..], b);
        } else {
          RevisionsFromAppend(revisions + SplitAsciiWhitespace(line[|RevisionsPrefix|..]), a[1..], b);
        }
    }
  }

  /**
   * A line that `load_revisions` ignores: not a directive, scoped to a
   * revision, or a directive whose text does not start with `revisions:`.
   */
  predicate InertRevisionsLine(line: string) {
    match LineDirective(Comment, Trim(line))
    case Fatal(_) => false
    case Ok(None) => true
    case Ok(Some((revision, text))) => revision.Some? || !StartsWith(text, RevisionsPrefix)
  }

  /** An ignored first line is skipped, whatever was collected before. */
  lemma InertRevisionsHead(revisions: seq<string>, a: seq<string>)
    requires a != [] && InertRevisionsLine(a[0])
    ensures RevisionsFrom(revisions, a) == RevisionsFrom(revisions, a[1..])
  {
    match LineDirective(Comment, Trim(a[0]))
    case Fatal(_) =>
    case Ok(None) =>
    case Ok(Some(_)) =>
  }

  /** An ignored line contributes nothing, whatever was collected before. */
  lemma InertRevisionsLineSkipped(revisions: seq<string>, line: string, b: seq<string>)
    requires InertRevisionsLine(line)
    ensures RevisionsFrom(revisions, [line] + b) == RevisionsFrom(revisions, b)
  {
    assert ([line] + b)[0] == line && ([line] + b)[1..] == b;
    InertRevisionsHead(revisions, [line] + b);
  }

  /** Deleting an ignored line anywhere in the file leaves the revisions unchanged. */
  lemma InertRevisionsLineIgnored(a: seq<string>, line: string, b: seq<string>)
    requires InertRevisionsLine(line)
    ensures RevisionsFrom([], a + [line] + b) == RevisionsFrom([], a + b)
  {
    assert a + [line] + b == a + ([line] + b);
    RevisionsFromAppend([], a, [line] + b);
    RevisionsFromAppend([], a, b);
    match RevisionsFrom([], a)
    case Fatal(_) =>
    case Ok(q) => InertRevisionsLineSkipped(q, line, b);
  }

  /** Lines that are all ignored collect nothing. */
  lemma {:induction false} InertRevisionsLinesCollectNothing(a: seq<string>)
    requires forall k | 0 <= k < |a| :: InertRevisionsLine(a[k])
    ensures RevisionsFrom([], a) == Ok([])
    decreases |a|
  {
    if a != [] {
      InertRevisionsHead([], a);
      InertRevisionsLinesCollectNothing(a[1..]);
    }
  }

  /**
   * The first unscoped `revisions:` line that lists at least one word
   * decides the revisions: the lines before it contributed nothing, and
   * the lines after it add nothing (they can only be fatal).
   */
  lemma FirstRevisionsLineWins(a: seq<string>, line: string, b: seq<string>, text: string)
    requires RevisionsFrom([], a) == Ok([])
    requires LineDirective(Comment, Trim(line)) == Ok(Some((None, text)))
    requires StartsWith(text, RevisionsPrefix)
    requires SplitAsciiWhitespace(text[|RevisionsPrefix|..]) != []
    ensures RevisionsFrom([], a + [line] + b).Ok? ==>
      RevisionsFrom([], a + [line] + b) == Ok(SplitAsciiWhitespace(text[|RevisionsPrefix|..]))
  {
    var words := SplitAsciiWhitespace(text[|RevisionsPrefix|..]);
    assert a + [line] + b == a + ([line] + b);
    RevisionsFromAppend([], a, [line] + b);
    assert ([line] + b)[0] == line && ([line] + b)[1..] == b;
    assert RevisionsFrom([], [line] + b) == RevisionsFrom([] + words, b);
    assert [] + words == words;
  }

  /**
   * Two unscoped `revisions:` lines: the first decides the list unless it
   * lists no words, in which case the second does.
   */
  lemma TwoRevisionsLines(l1: string, t1: string, w1: seq<string>, l2: string, t2: string, w2: seq<string>)
    requires LineDirective(Comment, Trim(l1)) == Ok(Some((None, t1)))
    requires StartsWith(t1, RevisionsPrefix) && SplitAsciiWhitespace(t1[|RevisionsPrefix|..]) == w1
    requires LineDirective(Comment, Trim(l2)) == Ok(Some((None, t2)))
    requires StartsWith(t2, RevisionsPrefix) && SplitAsciiWhitespace(t2[|RevisionsPrefix|..]) == w2
    ensures RevisionsFrom([], [l1, l2]) == Ok(if w1 == [] then w2 else w1)
  {
    var lines := [l1, l2];
    assert lines[1..] == [l2] && [l2][1..] == [];
    assert [] + w1 == w1;
    if w1 == [] {
      assert RevisionsFrom([], lines) == RevisionsFrom([], [l2]);
      assert RevisionsFrom([], [l2]) == RevisionsFrom([] + w2, []);
      assert [] + w2 == w2;
    } else {
      assert RevisionsFrom([], lines) == RevisionsFrom(w1, [l2]);
      assert RevisionsFrom(w1, [l2]) == RevisionsFrom(w1, []);
    }
  }

  /**
   * `// revisions: a b c` followed by `// revisions: x y` gives `a b c`:
   * the first list wins.
   */
  lemma RevisionsScenario(first: seq<string>, second: seq<string>)
    requires first != [] && second != []
    requires forall k | 0 <= k < |first| :: IsAsciiWord(first[k])
    requires forall k | 0 <= k < |second| :: IsAsciiWord(second[k])
    requires NoTrailingWhitespace(JoinWithSpaces(first)) && NoTrailingWhitespace(JoinWithSpaces(second))
    ensures RevisionsFrom([], ["// revisions: " + JoinWithSpaces(first), "// revisions: " + JoinWithSpaces(second)])
         == Ok(first)
  {
    JoinedRevisionsLine(first);
    JoinedRevisionsLine(second);
    TwoRevisionsLines("// revisions: " + JoinWithSpaces(first), "revisions: " + JoinWithSpaces(first), first,
                      "// revisions: " + JoinWithSpaces(second), "revisions: " + JoinWithSpaces(second), second);
  }

  /**
   * A `// revisions:` line that lists no words leaves the list empty, so
   * the next `revisions:` line still decides it.
   */
  lemma EmptyRevisionsLineDoesNotLatch(words: seq<string>)
    requires words != []
    requires forall k | 0 <= k < |words| :: IsAsciiWord(words[k])
    requires NoTrailingWhitespace(JoinWithSpaces(words))
    ensures RevisionsFrom([], ["// revisions:", "// revisions: " + JoinWithSpaces(words)]) == Ok(words)
  {
    EmptyRevisionsLine();
    JoinedRevisionsLine(words);
    TwoRevisionsLines("// revisions:", "revisions:", [],
                      "// revisions: " + JoinWithSpaces(words), "revisions: " + JoinWithSpaces(words), words);
  }

  /** The line `// revisions: <words joined by spaces>` scans to those words. */
  lemma JoinedRevisionsLine(words: seq<string>)
    requires words != []
    requires forall k | 0 <= k < |words| :: IsAsciiWord(words[k])
    requires NoTrailingWhitespace(JoinWithSpaces(words))
    ensures var line := "// revisions: " + JoinWithSpaces(words);
      var text := "revisions: " + JoinWithSpaces(words);
      LineDirective(Comment, Trim(line)) == Ok(Some((None, text))) &&
      StartsWith(text, RevisionsPrefix) &&
      SplitAsciiWhitespace(text[|RevisionsPrefix|..]) == words
  {
    var j := JoinWithSpaces(words);
    SplitJoin(words);
    SpacedRevisionsLine(j, words);
  }

  lemma RevisionsLits()
    ensures "// revisions: " == Comment + " " + "revisions: "
    ensures "// revisions:" == Comment + " " + "revisions:"
    ensures "revisions: " == RevisionsPrefix + " "
  {
  }

  /** The line `// revisions: <j>` scans to the words of `j`. */
  lemma SpacedRevisionsLine(j: string, expected: seq<string>)
    requires j != [] && NoTrailingWhitespace(j) && SplitAsciiWhitespace(j) == expected
    ensures var line := "// revisions: " + j;
      var text := "revisions: " + j;
      LineDirective(Comment, Trim(line)) == Ok(Some((None, text))) &&
      StartsWith(text, RevisionsPrefix) &&
      SplitAsciiWhitespace(text[|RevisionsPrefix|..]) == expected
  {
    var text := "revisions: " + j;
    RevisionsLits();
    assert "// revisions: " + j == Comment + " " + text;
    assert text == RevisionsPrefix + (" " + j);
    assert text[|text| - 1] == j[|j| - 1];
    SplitSkipsLeading(" ", j);
    RevisionsDirective("// revisions: " + j, text, " " + j, expected);
  }

  /** The line `// revisions:` with nothing after the colon scans to no words. */
  lemma EmptyRevisionsLine()
    ensures LineDirective(Comment, Trim("// revisions:")) == Ok(Some((None, "revisions:")))
    ensures StartsWith("revisions:", RevisionsPrefix)
    ensures SplitAsciiWhitespace("revisions:"[|RevisionsPrefix|..]) == []
  {
    RevisionsLits();
    assert RevisionsPrefix == RevisionsPrefix + [];
    RevisionsDirective("// revisions:", "revisions:", [], []);
  }

  /**
   * An unscoped directive line `// revisions:<rest>` with nothing to trim:
   * its text starts with the prefix and the words are those of `rest`.
   */
  lemma RevisionsDirective(line: string, text: string, rest: string, expected: seq<string>)
    requires line == Comment + " " + text && text == RevisionsPrefix + rest
    requires NoTrailingWhitespace(text) && SplitAsciiWhitespace(rest) == expected
    ensures LineDirective(Comment, Trim(line)) == Ok(Some((None, text)))
    ensures StartsWith(text, RevisionsPrefix)
    ensures SplitAsciiWhitespace(text[|RevisionsPrefix|..]) == expected
  {
    assert line == [] + Comment + " " + text;
    assert text[0] == 'r';
    LineDirectiveUnscoped(Comment, [], " ", text);
    assert line[0] == '/' && line[|line| - 1] == text[|text| - 1];
    TrimUnchanged(line);
    assert text[..|RevisionsPrefix|] == RevisionsPrefix;
    assert text[|RevisionsPrefix|..] == rest;
  }
}

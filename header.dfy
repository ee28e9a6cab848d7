/**
 * The directive scanner of the test runner: it reads the comment lines of
 * a test fixture (`// <directive> <value>`, optionally scoped to one
 * revision as `//[revision] <directive> <value>`) into the test's
 * properties, and collects the fixture's `revisions:` list.
 *
 * Lines are strings of Unicode scalar values. Every character the word
 * scanner compares against is ASCII, so character positions select the
 * same substrings that byte positions select in the program.
 */
module Header {
  import opened Wrappers
  import opened StrUtil

  /** The comment prefix both scans look for. */
  const Comment: string := "//"

  /** The prefix of the line that declares the fixture's revisions. */
  const RevisionsPrefix: string := "revisions:"

  // ---------------------------------------------------------------------
  // Test properties
  // ---------------------------------------------------------------------

  /**
   * The properties a fixture declares. The expected diagnostics are
   * produced by a loader that is not part of this model, so their type is
   * a parameter.
   */
  datatype TestProps<E> = TestProps(
    expectedErrors: seq<E>,
    normalizeStdout: seq<(string, string)>,
    normalizeStderr: seq<(string, string)>,
    dontCheckCompilerStdout: bool,
    dontCheckCompilerStderr: bool,
    compareOutputLinesBySubset: bool,
    evmVersion: Option<string>)
  {
    /** The defaults: no vectors, no flags, no EVM version. */
    static function New(): (r: TestProps<E>)
      ensures r.expectedErrors == [] && r.normalizeStdout == [] && r.normalizeStderr == []
      ensures !r.dontCheckCompilerStdout && !r.dontCheckCompilerStderr && !r.compareOutputLinesBySubset
      ensures r.evmVersion.None?
    {
      TestProps([], [], [], false, false, false, None)
    }
  }

  // ---------------------------------------------------------------------
  // Directives
  // ---------------------------------------------------------------------

  datatype DirectiveKind = Dummy | EvmVersion
  {
    /** The directive a word names; `evm-version` is the only one. */
    static function FromStr(s: string): (r: Option<DirectiveKind>)
      ensures r.Some? <==> s == "evm-version"
      ensures r.Some? ==> r.value == EvmVersion
    {
      if s == "evm-version" then Some(EvmVersion) else None
    }
  }

  datatype TestDirective = TestDirective(negative: bool, kind: DirectiveKind)

  /** The directive a line has before, or without, a recognised word. */
  const DummyDirective: TestDirective := TestDirective(false, Dummy)

  /** The characters a directive word is made of: `[A-Za-z0-9_-]`. */
  predicate IsWordChar(c: char) {
    ('a' <= c <= 'z') || ('A' <= c <= 'Z') || ('0' <= c <= '9') || c == '-' || c == '_'
  }

  /** The number of ASCII whitespace characters that start `s`. */
  function AsciiSpaceLen(s: string): (n: nat)
    ensures n <= |s|
    ensures forall i | 0 <= i < n :: IsAsciiWhitespace(s[i])
    ensures n < |s| ==> !IsAsciiWhitespace(s[n])
    decreases |s|
  {
    if s != [] && IsAsciiWhitespace(s[0]) then 1 + AsciiSpaceLen(s[1..]) else 0
  }

  /** The number of word characters that start `s`. */
  function WordCharLen(s: string): (n: nat)
    ensures n <= |s|
    ensures forall i | 0 <= i < n :: IsWordChar(s[i])
    ensures n < |s| ==> !IsWordChar(s[n])
    decreases |s|
  {
    if s != [] && IsWordChar(s[0]) then 1 + WordCharLen(s[1..]) else 0
  }

  lemma {:induction false} AsciiSpaceLenUnique(s: string, n: nat)
    requires n <= |s|
    requires forall i | 0 <= i < n :: IsAsciiWhitespace(s[i])
    requires n < |s| ==> !IsAsciiWhitespace(s[n])
    ensures AsciiSpaceLen(s) == n
    decreases n
  {
    if n > 0 {
      AsciiSpaceLenUnique(s[1..], n - 1);
    }
  }

  lemma {:induction false} WordCharLenUnique(s: string, n: nat)
    requires n <= |s|
    requires forall i | 0 <= i < n :: IsWordChar(s[i])
    requires n < |s| ==> !IsWordChar(s[n])
    ensures WordCharLen(s) == n
    decreases n
  {
    if n > 0 {
      WordCharLenUnique(s[1..], n - 1);
    }
  }

  /**
   * Where the next word of `line` starts and ends, as `next_word_idx`
   * reports it. After the leading ASCII whitespace, a character that is
   * not a word character gives `(None, None)`; otherwise the word starts
   * there, and `end` is the first non-word character after it, or `None`
   * when the word runs to the end of the line.
   */
  function WordIdx(line: string): (r: (Option<nat>, Option<nat>))
    ensures r.0.None? ==> r.1.None?
    ensures r.0.Some? <==> AsciiSpaceLen(line) < |line| && IsWordChar(line[AsciiSpaceLen(line)])
    ensures r.0.Some? ==> r.0.value == AsciiSpaceLen(line)
    ensures r.0.Some? && r.1.Some? ==>
      r.0.value < r.1.value < |line| && !IsWordChar(line[r.1.value])
    ensures r.0.Some? ==>
      forall i | r.0.value <= i < (if r.1.Some? then r.1.value else |line|) :: IsWordChar(line[i])
  {
    var start := AsciiSpaceLen(line);
    if start < |line| && IsWordChar(line[start]) then
      var end := start + WordCharLen(line[start..]);
      (Some(start), if end < |line| then Some(end) else None)
    else
      (None, None)
  }

  /**
   * The directive a word names, after an optional `no-` prefix that
   * negates it. Only `evm-version` and `no-evm-version` are recognised.
   */
  function ParseWord(word: string): (r: Option<TestDirective>)
    ensures r.Some? <==> word == "evm-version" || word == "no-evm-version"
    ensures r.Some? ==> r.value == TestDirective(word == "no-evm-version", EvmVersion)
  {
    var negative := StartsWith(word, "no-");
    var name := if negative then word[3..] else word;
    assert negative ==> word == "no-" + name && word[0] == 'n';
    assert word == "no-evm-version" ==> negative && name == "evm-version";
    match DirectiveKind.FromStr(name)
    case Some(kind) => Some(TestDirective(negative, kind))
    case None => None
  }

  /**
   * The directive `parse_directive` recognises at the start of `line`, with
   * the index just past its word. The word must be followed by something
   * on the line: a word that ends the line is not recognised.
   */
  function Recognized(line: string): (r: Option<(TestDirective, nat)>)
    ensures r.Some? ==> r.value.1 <= |line| && r.value.0.kind == EvmVersion
    ensures r.Some? <==>
      WordIdx(line).0.Some? && WordIdx(line).1.Some? &&
      line[WordIdx(line).0.value..WordIdx(line).1.value] in {"evm-version", "no-evm-version"}
    ensures r.Some? ==>
      r.value.1 == WordIdx(line).1.value &&
      r.value.0.negative == (line[WordIdx(line).0.value..WordIdx(line).1.value] == "no-evm-version")
  {
    match WordIdx(line)
    case (Some(start), Some(end)) =>
      (match ParseWord(line[start..end])
       case Some(d) => Some((d, end))
       case None => None)
    case _ => None
  }

  /**
   * The parser's directive and remaining line after `parse_directive` on a
   * fresh parser: unchanged unless a directive was recognised, in which
   * case the line continues just past the directive's word.
   */
  function ParsedState(line: string): (r: (TestDirective, string))
    ensures r.0.kind == EvmVersion <==> Recognized(line).Some?
    ensures Recognized(line).None? ==> r == (DummyDirective, line)
    ensures Recognized(line).Some? ==>
      r.0 == Recognized(line).value.0 && r.1 == line[Recognized(line).value.1..]
  {
    match Recognized(line)
    case Some((d, end)) => (d, line[end..])
    case None => (DummyDirective, line)
  }

  /**
   * What `word_value` reads from the rest of a directive line: the next
   * complete word. It is fatal when no word followed by another character
   * is found, and then, when the directive was negated.
   */
  function WordValueOf(line: string, negative: bool): (r: Outcome<string>)
    ensures r.Fatal? <==> WordIdx(line).1.None? || negative
    ensures WordIdx(line).1.None? ==> r == Fatal(ExpectedWordValue)
    ensures WordIdx(line).1.Some? && negative ==> r == Fatal(UnexpectedNegative)
    ensures r.Ok? ==>
      r.value != [] && (forall i | 0 <= i < |r.value| :: IsWordChar(r.value[i])) &&
      r.value == line[WordIdx(line).0.value..WordIdx(line).1.value]
  {
    match WordIdx(line)
    case (Some(start), Some(end)) =>
      if negative then Fatal(UnexpectedNegative) else Ok(line[start..end])
    case _ => Fatal(ExpectedWordValue)
  }

  /**
   * The value word as evidently intended: the next word, whether or not
   * another character follows it on the line.
   */
  function WordValueToEndOf(line: string, negative: bool): (r: Outcome<string>)
    ensures r.Fatal? <==> WordIdx(line).0.None? || negative
    ensures WordIdx(line).0.None? ==> r == Fatal(ExpectedWordValue)
    ensures WordIdx(line).0.Some? && negative ==> r == Fatal(UnexpectedNegative)
    ensures r.Ok? ==>
      r.value != [] && (forall i | 0 <= i < |r.value| :: IsWordChar(r.value[i])) &&
      r.value == line[WordIdx(line).0.value..if WordIdx(line).1.Some? then WordIdx(line).1.value else |line|]
  {
    match WordIdx(line)
    case (Some(start), end) =>
      if negative then Fatal(UnexpectedNegative)
      else Ok(line[start..if end.Some? then end.value else |line|])
    case _ => Fatal(ExpectedWordValue)
  }

  /**
   * A mutable cursor over the directive text of one line and the
   * directive recognised so far.
   */
  class DirectiveParser {
    var line: string
    var directive: TestDirective

    constructor (line: string)
      ensures this.line == line && directive == DummyDirective
    {
      this.line := line;
      directive := DummyDirective;
    }

    /** Scans for the next word of the remaining line. */
    method NextWordIdx() returns (start: Option<nat>, end: Option<nat>)
      ensures (start, end) == WordIdx(line)
    {
      start, end := None, None;
      var i := 0;
      while i < |line|
        invariant 0 <= i <= |line| && end.None?
        invariant start.None? ==> forall j | 0 <= j < i :: IsAsciiWhitespace(line[j])
        invariant start.Some? ==> start.value == AsciiSpaceLen(line) && start.value < i
        invariant start.Some? ==> forall j | start.value <= j < i :: IsWordChar(line[j])
        decreases |line| - i
      {
        var c := line[i];
        if start.None? {
          if IsAsciiWhitespace(c) {
            i := i + 1;
            continue;
          } else if IsWordChar(c) {
            AsciiSpaceLenUnique(line, i);
            start := Some(i);
          } else {
            AsciiSpaceLenUnique(line, i);
            break;
          }
        } else if !IsWordChar(c) {
          WordCharLenUnique(line[start.value..], i - start.value);
          end := Some(i);
          break;
        }
        i := i + 1;
      }
      if i == |line| {
        if start.None? {
          AsciiSpaceLenUnique(line, i);
        } else {
          WordCharLenUnique(line[start.value..], i - start.value);
        }
      }
    }

    /**
     * Recognises the directive word at the start of the line. On success
     * the directive is recorded and the line advances past the word;
     * otherwise nothing changes.
     */
    method ParseDirective()
      modifies this
      ensures Recognized(old(line)).None? ==> directive == old(directive) && line == old(line)
      ensures Recognized(old(line)).Some? ==>
        directive == Recognized(old(line)).value.0 &&
        line == old(line)[Recognized(old(line)).value.1..]
    {
      var start, end := NextWordIdx();
      if start.None? || end.None? {
        return;
      }
      var word := line[start.value..end.value];
      var negative := StartsWith(word, "no-");
      if negative {
        word := word[3..];
      }
      var kind := DirectiveKind.FromStr(word);
      if kind.None? {
        return;
      }
      line := line[end.value..];
      directive := TestDirective(negative, kind.value);
    }

    /** Fatal when the directive was negated. */
    method ExpectNoNegative() returns (r: Outcome<()>)
      ensures r.Fatal? <==> directive.negative
      ensures r.Fatal? ==> r.kind == UnexpectedNegative
    {
      if directive.negative {
        return Fatal(UnexpectedNegative);
      }
      return Ok(());
    }

    /**
     * Reads the value of a value-bearing directive: the next complete word
     * of the line. The caller stores it, replacing any earlier value.
     */
    method WordValue() returns (r: Outcome<string>)
      ensures r == WordValueOf(line, directive.negative)
    {
      var start, end := NextWordIdx();
      if start.None? || end.None? {
        return Fatal(ExpectedWordValue);
      }
      var ok := ExpectNoNegative();
      if ok.Fatal? {
        return Fatal(ok.kind);
      }
      return Ok(line[start.value..end.value]);
    }

    /**
     * `WordValue` as evidently intended: a value word that runs to the end
     * of the line is accepted too.
     */
    method WordValueToEnd() returns (r: Outcome<string>)
      ensures r == WordValueToEndOf(line, directive.negative)
    {
      var start, end := NextWordIdx();
      if start.None? {
        return Fatal(ExpectedWordValue);
      }
      var ok := ExpectNoNegative();
      if ok.Fatal? {
        return Fatal(ok.kind);
      }
      var stop := if end.Some? then end.value else |line|;
      return Ok(line[start.value..stop]);
    }
  }

  // ---------------------------------------------------------------------
  // Lines
  // ---------------------------------------------------------------------

  /**
   * Splits a line into its optional revision scope and its directive text.
   * A line whose first non-whitespace text is not the comment prefix is not
   * a directive. After the prefix and any whitespace, `[` opens a scope
   * that the first `]` closes; a scope that is never closed is fatal. The
   * directive text has its leading whitespace removed.
   */
  function LineDirective(comment: string, ln: string): (r: Outcome<Option<(Option<string>, string)>>)
    ensures r == Ok(None) <==> !StartsWith(TrimStart(ln), comment)
    ensures r.Ok? && r.value.Some? ==> NoLeadingWhitespace(r.value.value.1)
    ensures r.Ok? && r.value.Some? && r.value.value.0.Some? ==> ']' !in r.value.value.0.value
    ensures r.Fatal? ==> r.kind == MalformedCondition
  {
    var ln := TrimStart(ln);
    if StartsWith(ln, comment) then
      var ln := TrimStart(ln[|comment|..]);
      if ln != [] && ln[0] == '[' then
        match Find(ln, ']')
        case None => Fatal(MalformedCondition)
        case Some(closeBrace) =>
          Ok(Some((Some(ln[1..closeBrace]), TrimStart(ln[closeBrace + 1..]))))
      else
        Ok(Some((None, ln)))
    else
      Ok(None)
  }

  /** True of a comment prefix that does not itself start with whitespace. */
  predicate IsCommentPrefix(comment: string) {
    comment != [] && !IsWhitespace(comment[0])
  }

  /** Whitespace, the prefix and whitespace again: the text of the line past them. */
  lemma AfterPrefix(comment: string, w1: string, w2: string, s: string)
    requires IsCommentPrefix(comment) && AllWhitespace(w1) && AllWhitespace(w2)
    requires NoLeadingWhitespace(s)
    ensures TrimStart(w1 + comment + w2 + s) == comment + w2 + s
    ensures StartsWith(comment + w2 + s, comment)
    ensures TrimStart((comment + w2 + s)[|comment|..]) == s
  {
    var t := comment + w2 + s;
    assert w1 + comment + w2 + s == w1 + t;
    assert t[0] == comment[0];
    TrimStartOfPadded(w1, t);
    assert t[..|comment|] == comment;
    assert t[|comment|..] == w2 + s;
    TrimStartOfPadded(w2, s);
  }

  /** An unscoped directive line gives its directive text and no revision. */
  lemma LineDirectiveUnscoped(comment: string, w1: string, w2: string, text: string)
    requires IsCommentPrefix(comment) && AllWhitespace(w1) && AllWhitespace(w2)
    requires NoLeadingWhitespace(text) && (text == [] || text[0] != '[')
    ensures LineDirective(comment, w1 + comment + w2 + text) == Ok(Some((None, text)))
  {
    AfterPrefix(comment, w1, w2, text);
  }

  /**
   * A scoped line `//[rev] rest` gives the revision strictly between the
   * brackets and the rest with its leading whitespace removed.
   */
  lemma LineDirectiveScoped(comment: string, w1: string, w2: string, rev: string, rest: string)
    requires IsCommentPrefix(comment) && AllWhitespace(w1) && AllWhitespace(w2)
    requires ']' !in rev
    ensures LineDirective(comment, w1 + comment + w2 + "[" + rev + "]" + rest)
         == Ok(Some((Some(rev), TrimStart(rest))))
  {
    var s := "[" + rev + "]" + rest;
    assert w1 + comment + w2 + "[" + rev + "]" + rest == w1 + comment + w2 + s;
    AfterPrefix(comment, w1, w2, s);
    ScopeBounds(rev, rest);
  }

  lemma ScopeBounds(rev: string, rest: string)
    requires ']' !in rev
    ensures var s := "[" + rev + "]" + rest;
      s[0] == '[' && Find(s, ']') == Some(1 + |rev|) &&
      s[1..1 + |rev|] == rev && s[1 + |rev| + 1..] == rest
  {
    var s := "[" + rev + "]" + rest;
    forall i | 0 <= i < 1 + |rev| ensures s[i] != ']' {
      if i > 0 {
        assert s[i] == rev[i - 1];
      }
    }
    FindFirst(s, ']', 1 + |rev|);
    assert s[1..1 + |rev|] == rev;
    assert s[1 + |rev| + 1..] == rest;
  }

  /** A `[` that no `]` closes is fatal. */
  lemma LineDirectiveUnterminated(comment: string, w1: string, w2: string, rest: string)
    requires IsCommentPrefix(comment) && AllWhitespace(w1) && AllWhitespace(w2)
    requires ']' !in rest
    ensures LineDirective(comment, w1 + comment + w2 + "[" + rest) == Fatal(MalformedCondition)
  {
    var s := "[" + rest;
    assert w1 + comment + w2 + "[" + rest == w1 + comment + w2 + s;
    AfterPrefix(comment, w1, w2, s);
    NoCloseAfterOpen(rest);
  }

  lemma NoCloseAfterOpen(rest: string)
    requires ']' !in rest
    ensures ']' !in "[" + rest
  {
    var s := "[" + rest;
    forall i | 0 <= i < |s| ensures s[i] != ']' {
      if i > 0 {
        assert s[i] == rest[i - 1];
      }
    }
  }

  // ---------------------------------------------------------------------
  // Loading the properties
  // ---------------------------------------------------------------------

  /**
   * The callback body of `load` for one directive text that applies: it
   * parses the directive and, for `evm-version`, stores the value word.
   * The value is read by the corrected reader, which also accepts a value
   * that ends the line.
   */
  function ApplyDirective<E>(props: TestProps<E>, text: string): (r: Outcome<TestProps<E>>)
    ensures r.Ok? ==> r.value == props.(evmVersion := r.value.evmVersion)
  {
    var (directive, rest) := ParsedState(text);
    match directive.kind
    case Dummy => Ok(props)
    case EvmVersion =>
      match WordValueToEndOf(rest, directive.negative)
      case Fatal(k) => Fatal(k)
      case Ok(word) => Ok(props.(evmVersion := Some(word)))
  }

  /**
   * One line of the fixture in `load`: a line scoped to a revision other
   * than `cfg` is skipped, so is a line that is not a directive at all.
   */
  function ScanLine<E>(props: TestProps<E>, cfg: Option<string>, line: string): (r: Outcome<TestProps<E>>)
    ensures LineDirective(Comment, line).Fatal? ==> r == Fatal(MalformedCondition)
    ensures LineDirective(Comment, line) == Ok(None) ==> r == Ok(props)
    ensures r.Ok? ==> r.value == props.(evmVersion := r.value.evmVersion)
  {
    match LineDirective(Comment, line)
    case Fatal(k) => Fatal(k)
    case Ok(None) => Ok(props)
    case Ok(Some((revision, text))) =>
      if revision.Some? && revision != cfg then Ok(props) else ApplyDirective(props, text)
  }

  /** The lines scanned in order from `props`; the first fatal line aborts. */
  function LoadFrom<E>(props: TestProps<E>, cfg: Option<string>, lines: seq<string>): (r: Outcome<TestProps<E>>)
    ensures r.Ok? ==> r.value == props.(evmVersion := r.value.evmVersion)
    decreases |lines|
  {
    if lines == [] then Ok(props)
    else
      match ScanLine(props, cfg, lines[0])
      case Fatal(k) => Fatal(k)
      case Ok(next) => LoadFrom(next, cfg, lines[1..])
  }

  /** The properties `load` builds from a fixture's lines for revision `cfg`. */
  function LoadSpec<E>(lines: seq<string>, cfg: Option<string>, expectedErrors: seq<E>): Outcome<TestProps<E>>
  {
    LoadFrom(TestProps<E>.New().(expectedErrors := expectedErrors), cfg, lines)
  }

  /**
   * Loads the test properties from the lines of a fixture, reading values
   * with the corrected reader. The expected diagnostics come from a loader
   * outside this model.
   */
  method Load<E>(lines: seq<string>, cfg: Option<string>, expectedErrors: seq<E>) returns (r: Outcome<TestProps<E>>)
    ensures r == LoadSpec(lines, cfg, expectedErrors)
  {
    var props := TestProps<E>.New();
    props := props.(expectedErrors := expectedErrors);
    var i := 0;
    while i < |lines|
      invariant 0 <= i <= |lines|
      invariant LoadFrom(props, cfg, lines[i..]) == LoadSpec(lines, cfg, expectedErrors)
    {
      assert lines[i..][1..] == lines[i + 1..];
      match LineDirective(Comment, lines[i]) {
        case Fatal(k) =>
          return Fatal(k);
        case Ok(None) =>
        case Ok(Some((revision, text))) =>
          if !(revision.Some? && revision != cfg) {
            var parser := new DirectiveParser(text);
            parser.ParseDirective();
            match parser.directive.kind {
              case Dummy =>
              case EvmVersion =>
                var value := parser.WordValueToEnd();
                if value.Fatal? {
                  return Fatal(value.kind);
                }
                props := props.(evmVersion := Some(value.value));
            }
          }
      }
      i := i + 1;
    }
    return Ok(props);
  }

  // ---------------------------------------------------------------------
  // Collecting the revisions
  // ---------------------------------------------------------------------

  /**
   * The callback of `load_revisions` over the (trimmed) lines in order,
   * from the revisions collected so far. Only an unscoped directive that
   * starts with `revisions:` contributes, and only while nothing has been
   * collected yet; its whitespace-separated words are appended.
   */
  function RevisionsFrom(revisions: seq<string>, lines: seq<string>): (r: Outcome<seq<string>>)
    ensures r.Ok? ==> revisions <= r.value
    ensures r.Ok? ==> forall k | |revisions| <= k < |r.value| :: IsAsciiWord(r.value[k])
    ensures r.Ok? && revisions != [] ==> r.value == revisions
    decreases |lines|
  {
    if lines == [] then Ok(revisions)
    else
      match LineDirective(Comment, Trim(lines[0]))
      case Fatal(k) => Fatal(k)
      case Ok(None) => RevisionsFrom(revisions, lines[1..])
      case Ok(Some((revision, line))) =>
        if revision.Some? || revisions != [] || !StartsWith(line, RevisionsPrefix) then
          RevisionsFrom(revisions, lines[1..])
        else
          RevisionsFrom(revisions + SplitAsciiWhitespace(line[|RevisionsPrefix|..]), lines[1..])
  }

  /**
   * The revisions a fixture declares. Each line is trimmed at both ends
   * before it is examined, as the file reader does.
   */
  method LoadRevisions(lines: seq<string>) returns (r: Outcome<seq<string>>)
    ensures r == RevisionsFrom([], lines)
  {
    var revisions := [];
    var i := 0;
    while i < |lines|
      invariant 0 <= i <= |lines|
      invariant RevisionsFrom(revisions, lines[i..]) == RevisionsFrom([], lines)
    {
      assert lines[i..][1..] == lines[i + 1..];
      match LineDirective(Comment, Trim(lines[i])) {
        case Fatal(k) =>
          return Fatal(k);
        case Ok(None) =>
        case Ok(Some((revision, line))) =>
          if !(revision.Some? || revisions != [] || !StartsWith(line, RevisionsPrefix)) {
            revisions := revisions + SplitAsciiWhitespace(line[|RevisionsPrefix|..]);
          }
      }
      i := i + 1;
    }
    return Ok(revisions);
  }
}

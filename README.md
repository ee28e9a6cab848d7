# Solar: Solidity item AST and the test-directive scanner

This project models two parts of Solar, a Solidity compiler written in Rust.
It proves properties of both.

* **The item layer of the AST** (`Ast`, `item.dfy`). These are the top-level
  declarations of a Solidity source unit: pragma, import, using, contract,
  function, state variable, struct, enum, user-defined value type, error
  and event. Also modelled: the helpers that inspect pragma tokens and
  identifier-or-literal names, and the keyword spelling (`to_str`) of every
  keyword enum. Leaf values that this layer only carries are abstract types:
  types, expressions, blocks, paths, call arguments, raw tokens, semver
  requirements, doc comments and spans.
* **The test runner's directive scanner** (`Header`, `header.dfy`). It
  splits a fixture line into an optional `//[revision]` scope and a
  directive text. It parses `evm-version` / `no-evm-version` directives with
  a small word parser object (`DirectiveParser`, a class with the fields
  `line` and `directive`). It loads the test properties (`Load`) and collects
  a fixture's `revisions:` list (`LoadRevisions`). Both loaders are loops,
  each proved equal to a pure specification function (`LoadSpec`,
  `RevisionsFrom`). The properties are proved about those functions in
  `HeaderLemmas` (`header_lemmas.dfy`).

`StrUtil` (`text.dfy`) models the Rust `str` operations the scanner relies
on: `trim_start`, `trim_end` and `trim` (Unicode White_Space); `starts_with`;
`find`; and `split_ascii_whitespace` (space, tab, line feed, form feed and
carriage return). `Wrappers` (`wrappers.dfy`) holds `Option` and `Outcome`;
an `Outcome` is a value or the panic that aborts a scan.

Four behaviours of the scanner's code are easy to miss; the model follows
the code:

* As written, a value that ends the line is rejected. `// evm-version paris`
  with nothing after `paris` panics with "expected a word value"; it does
  not store `paris`. This is logged under Findings. The reader as written
  (`WordValueOf`, `DirectiveParser.WordValue`) is modelled and the panic is
  proved (`FinalValueRejected`). `Load` and its specification use the
  corrected reader (`WordValueToEndOf`, `DirectiveParser.WordValueToEnd`).
  The corrected reader agrees with the one as written wherever that one
  succeeds.
* The colon form `// evm-version: paris` is not an unrecognised directive
  that is skipped. The word `evm-version` is recognised, then the value
  reader finds `:` and panics (`ColonFormFatal`).
* For revisions, "the first `revisions:` line wins" holds only for the first
  unscoped line that lists at least one word. A bare `// revisions:` leaves
  the list empty, so a later line still decides it
  (`EmptyRevisionsLineDoesNotLatch`).
* `load_revisions` reads its lines through `directives_file`, which trims
  each line at both ends. `load` goes through `directives_str`, which does
  not trim. `line_directive` itself only trims the start.

## Model

| member | source | states |
|---|---|---|
| Ast.PragmaTokens.AsNameAndValue | crates/ast/src/ast/item.rs:95-100 | gives a result exactly for `pragma <name> [value];` (the `Custom` shape), and then that name and optional value; version and verbatim pragmas give `None` |
| Ast.IdentOrStrLit.Value | crates/ast/src/ast/item.rs:121-126 | the identifier's text for an identifier, the decoded value for a string literal |
| Ast.IdentOrStrLit.Span | crates/ast/src/ast/item.rs:129-134 | the span of whichever variant is present |
| Ast.ValueIgnoresVariant | crates/ast/src/ast/item.rs:103-117 | an identifier and a string literal with the same text have the same value, wherever they occur (pragmas treat them alike) |
| Ast.ContractKind.ToStr | crates/ast/src/ast/item.rs:249-256 | `abstract contract` is the only spelling that has a space; every other kind is one lower-case keyword |
| Ast.ContractKindToStrInjective | crates/ast/src/ast/item.rs:228-256 | different contract kinds are spelled differently |
| Ast.FunctionKind.ToStr | crates/ast/src/ast/item.rs:316-324 | each function kind is spelled as one lower-case keyword |
| Ast.FunctionKindToStrInjective | crates/ast/src/ast/item.rs:293-324 | different function kinds are spelled differently |
| Ast.Storage.ToStr | crates/ast/src/ast/item.rs:377-383 | each data location is spelled as one lower-case keyword |
| Ast.StorageToStrInjective | crates/ast/src/ast/item.rs:358-383 | different data locations are spelled differently |
| Ast.StateMutability.ToStr | crates/ast/src/ast/item.rs:405-411 | each state mutability is spelled as one lower-case keyword |
| Ast.StateMutabilityToStrInjective | crates/ast/src/ast/item.rs:386-411 | different mutabilities are spelled differently |
| Ast.Visibility.ToStr | crates/ast/src/ast/item.rs:435-442 | each visibility is spelled as one lower-case keyword |
| Ast.VisibilityToStrInjective | crates/ast/src/ast/item.rs:414-442 | different visibilities are spelled differently |
| Ast.VisibilityOrder | crates/ast/src/ast/item.rs:414-425 | the declaration order runs from restricted to unrestricted (`private < internal < public < external`) and tells every two visibilities apart |
| Ast.VarMut.ToStr | crates/ast/src/ast/item.rs:476-481 | each state-variable mutability is spelled as one lower-case keyword |
| Ast.VarMutToStrInjective | crates/ast/src/ast/item.rs:459-481 | `immutable` and `constant` are spelled differently |
| Header.DirectiveKind.FromStr | tools/tester/src/header.rs:101-106 | names a directive exactly for the word `evm-version` |
| Header.WordIdx | tools/tester/src/header.rs:147-174 | after leading ASCII whitespace, the word starts at the first character if that is a word character, otherwise there is no word; the end is the first non-word character after the start, or `None` when the word runs to the end of the line; everything between is word characters |
| Header.DirectiveParser.NextWordIdx | tools/tester/src/header.rs:147-174 | the byte scan (skip whitespace, start at a word character, stop at a non-word character) returns exactly `WordIdx` of the parser's line |
| Header.ParseWord | tools/tester/src/header.rs:121-131 | a word names a directive exactly when it is `evm-version` or `no-evm-version`, and the directive is negated exactly for `no-evm-version` |
| Header.Recognized | tools/tester/src/header.rs:119-132 | a directive is recognised exactly when the line has a complete word (a character follows it) that is `evm-version` or `no-evm-version`; the recorded index is that word's end, and the directive is negated exactly for `no-evm-version` |
| Header.ParsedState | tools/tester/src/header.rs:119-132 | a fresh parser keeps its line and the dummy directive unless a directive is recognised; then it records the recognised directive and continues just past the word |
| HeaderLemmas.ParsedWord | tools/tester/src/header.rs:119-132 | on a word token followed by a non-word character, a fresh parser records the word's directive and advances past the word when the word names one, and changes nothing otherwise |
| Header.TestProps.New | tools/tester/src/header.rs:30-40 | the defaults: no expected errors, no normalisation pairs, every flag false, no EVM version |
| Header.DirectiveParser.constructor | tools/tester/src/header.rs:115-117 | a new parser holds the given line and the dummy directive |
| Header.DirectiveParser.ParseDirective | tools/tester/src/header.rs:119-132 | the parser's new directive and line are those of `Recognized` on the old line; nothing changes when no directive is recognised |
| Header.DirectiveParser.ExpectNoNegative | tools/tester/src/header.rs:176-180 | fatal (unexpected negative) exactly when the current directive is negated |
| Header.WordValueOf | tools/tester/src/header.rs:134-145 | fatal "expected a word value" when no complete word follows; otherwise fatal when the directive is negated; otherwise the non-empty word, made of word characters, found at `WordIdx` |
| Header.DirectiveParser.WordValue | tools/tester/src/header.rs:134-145 | the value read equals `WordValueOf` of the parser's line and negation |
| Header.LineDirective | tools/tester/src/header.rs:215-236 | not a directive exactly when the start-trimmed line does not begin with the comment prefix; directive text never begins with whitespace; a scope never contains `]`; the only fatal case is an unclosed scope |
| Header.LineDirectiveUnscoped | tools/tester/src/header.rs:219-231 | `<ws>//<ws><text>` with `text` not starting with `[` gives no scope and `text` |
| Header.LineDirectiveScoped | tools/tester/src/header.rs:219-229 | `<ws>//<ws>[rev]rest` gives the revision strictly between the brackets and `rest` trimmed at the start |
| Header.LineDirectiveUnterminated | tools/tester/src/header.rs:222-226 | a `[` that no `]` closes is fatal (malformed condition) |
| Header.ApplyDirective | tools/tester/src/header.rs:51-56 | applying one directive text changes at most the EVM version |
| Header.ScanLine | tools/tester/src/header.rs:47-57 | one line of `load`: an unclosed scope is fatal, a non-directive line changes nothing, and any line changes at most the EVM version |
| Header.LoadFrom | tools/tester/src/header.rs:183-188 | scanning lines in order from any properties changes no field except the EVM version |
| Header.WordValueToEndOf | tools/tester/src/header.rs:134-145 | the corrected value reader: fatal "expected a word value" exactly when no word starts after the whitespace; otherwise fatal when negated; otherwise the whole word, up to the next non-word character or the end of the line |
| Header.Load | tools/tester/src/header.rs:43-59 | the loop over the lines (one fresh parser per directive line, out-of-scope lines skipped, the first fatal line aborting) computes exactly `LoadSpec`, reading values with the corrected reader |
| Header.LoadRevisions | tools/tester/src/header.rs:70-82 | the loop over the trimmed lines computes exactly `RevisionsFrom` from an empty list |
| HeaderLemmas.EvmVersionSetsValue | tools/tester/src/header.rs:51-55 | `evm-version <w>`, at the end of the line or followed by any non-word character, stores `w`, replacing what was stored before |
| HeaderLemmas.NegatedEvmVersionFatal | tools/tester/src/header.rs:123-126 | `no-evm-version <w>` is fatal (unexpected negative) |
| HeaderLemmas.ValueAfterSpace | tools/tester/src/header.rs:134-174 | after a space, a word token and a non-word tail (or nothing), the corrected reader gives the word unless negated; the reader as written fails when nothing follows the word |
| HeaderLemmas.ColonFormFatal | tools/tester/src/header.rs:139-141 | `evm-version:<anything>` is fatal (expected a word value) |
| HeaderLemmas.OtherWordIgnored | tools/tester/src/header.rs:128 | a first word other than `evm-version` / `no-evm-version` leaves the properties unchanged |
| HeaderLemmas.FinalValueRejected | tools/tester/src/header.rs:119-141 | as written, on `evm-version <w>` with nothing after `w` the parser recognises the directive, leaves ` <w>`, and `word_value` then panics "expected a word value" |
| HeaderLemmas.CorrectedReadsFinalValue | tools/tester/src/header.rs:134-145 | the corrected reader accepts a value that ends the line, and agrees with the reader as written wherever that one succeeds |
| Header.DirectiveParser.WordValueToEnd | tools/tester/src/header.rs:134-145 | the corrected value reader equals `WordValueToEndOf` |
| HeaderLemmas.LoadOnlySetsEvmVersion | tools/tester/src/header.rs:30-59 | loading starts from the defaults with the expected diagnostics filled in; the directive pass sets no normalisation pair and no flag |
| HeaderLemmas.LoadFromAppend | tools/tester/src/header.rs:183-188 | scanning `a + b` is scanning `a`, then `b` from where `a` left off; a fatal line in `a` aborts |
| HeaderLemmas.InertLineIgnored | tools/tester/src/header.rs:47-57 | deleting a line that is not a directive, is out of scope, or has no recognised word leaves the loaded properties unchanged |
| HeaderLemmas.LastEvmVersionWins | tools/tester/src/header.rs:55 | a last line that applies and stores `w` decides the EVM version, whatever the earlier lines stored |
| HeaderLemmas.ScopedLineApplies | tools/tester/src/header.rs:48-50 | a line scoped to `rev` applies under `rev` and is skipped under any other revision and under none |
| HeaderLemmas.ScopedEvmVersionLine | tools/tester/src/header.rs:43-59 | a one-line fixture `//[rev] evm-version <w>` stores `w` under revision `rev` and nothing otherwise |
| HeaderLemmas.UnscopedEvmVersionLine | tools/tester/src/header.rs:43-59 | a one-line fixture `// evm-version <w>` stores `w` under any revision or none |
| Header.RevisionsFrom | tools/tester/src/header.rs:74-80 | the collected list only grows, every added entry is a whitespace-free word, and once the list is non-empty no later line adds to it |
| HeaderLemmas.InertRevisionsLineSkipped | tools/tester/src/header.rs:76-78 | a line that is not a directive, is scoped, or does not start with `revisions:` contributes nothing, whatever was collected before |
| HeaderLemmas.InertRevisionsLineIgnored | tools/tester/src/header.rs:74-80 | deleting such a line anywhere in the file leaves the revisions unchanged |
| HeaderLemmas.InertRevisionsLinesCollectNothing | tools/tester/src/header.rs:74-80 | a file made only of such lines declares no revisions |
| HeaderLemmas.RevisionsFromAppend | tools/tester/src/header.rs:200-211 | collecting over `a + b` is collecting over `a`, then over `b` |
| HeaderLemmas.FirstRevisionsLineWins | tools/tester/src/header.rs:74-81 | the first unscoped `revisions:` line with at least one word decides the list, whatever came before it (nothing) or after it |
| HeaderLemmas.TwoRevisionsLines | tools/tester/src/header.rs:74-81 | of two `revisions:` lines, the first decides unless it lists no words, and then the second does |
| HeaderLemmas.RevisionsScenario | tools/tester/src/header.rs:70-82 | `// revisions: a b c` then `// revisions: x y` gives `a b c`, for any such word lists |
| HeaderLemmas.EmptyRevisionsLineDoesNotLatch | tools/tester/src/header.rs:76-79 | a bare `// revisions:` collects nothing, so the next `revisions:` line decides |
| HeaderLemmas.JoinedRevisionsLine | tools/tester/src/header.rs:75-79 | the line `// revisions: <words joined by spaces>` is an unscoped `revisions:` directive whose words are exactly those words |
| StrUtil.TrimStartOfPadded | tools/tester/src/header.rs:219-221 | `trim_start` removes exactly the leading whitespace |
| StrUtil.TrimUnchanged | tools/tester/src/header.rs:207 | a line with no whitespace at either end is its own `trim` |
| StrUtil.Find | tools/tester/src/header.rs:224 | `find` gives `None` exactly when the character is absent, and otherwise its first index |
| StrUtil.SplitAsciiWhitespace | tools/tester/src/header.rs:79 | every piece is a non-empty run without ASCII whitespace |
| StrUtil.SplitSkipsLeading | tools/tester/src/header.rs:79 | leading ASCII whitespace produces no word |
| StrUtil.SplitWordThenGap | tools/tester/src/header.rs:79 | a word followed by one or more ASCII whitespace characters is the next piece, and the split continues after the gap |
| StrUtil.SplitFinalWord | tools/tester/src/header.rs:79 | a word that ends the string is its last piece |
| StrUtil.SplitJoin | tools/tester/src/header.rs:79 | words joined with single spaces split back into the same words, in order |

## Left out

- `Error::load` and `Error::load_solc` (the expected-diagnostics loaders) are not part of this model. `Load` takes their result as a parameter.
- `TestProps::load_solc` only builds the defaults plus the result of `Error::load_solc`, so it is left out with that loader.
- File I/O in `load_revisions` / `directives_file`: `File::open`, `BufReader::read_line` and their `unwrap` panics. `LoadRevisions` takes the file's lines instead, each line already split off.
- `str::lines` in `load` / `directives_str`: `Load` takes the lines already split, including the removal of `\r\n` terminators.
- Line numbers passed to the callbacks: both callbacks ignore them.
- Header.DirectiveParser.WordValue: `word_value` is generic over `T: FromStr` and unwraps the parse. Its only caller uses `String`, whose parse cannot fail, so the model returns the word itself.
- Panic messages, and Rust's unwinding, are not modelled. A panic is `Outcome.Fatal` with its cause (unclosed scope, missing word value, unexpected negation).
- Byte offsets: the scanner works on bytes and the model on characters. Every compared byte is ASCII, so both select the same text. A multi-byte character next to a word is not treated differently.
- The `Display` implementations of the keyword enums only write `to_str`'s result to a formatter. They are not modelled separately.
- `Default for TestProps` only calls `TestProps::new`, which is `TestProps.New`.
- Building AST items from tokens (the parser) is not part of this model. The item datatypes are built and inspected only through the helpers above.
- Identifier text is modelled as a plain string. Interning is not modelled.
- Ast.Visibility.ToStr, Ast.FunctionKind.ToStr, Ast.Storage.ToStr, Ast.StateMutability.ToStr, Ast.VarMut.ToStr, Ast.ContractKind.ToStr: each contract states the shape of the spelling (lower-case keyword) and, in the injectivity lemmas, that spellings differ. The exact spelling is in the function bodies only.

## Findings

| source | as written | input that shows it | evidently intended | confidence | as-written member | corrected member |
|---|---|---|---|---|---|---|
| tools/tester/src/header.rs:139-141 | `word_value` requires an end index, which `next_word_idx` leaves unset when the word runs to the end of the line, so it panics "expected a word value" | the fixture line `// evm-version paris`, with nothing after `paris` | the final word of the line is the value, so `paris` is stored | medium, not executed | HeaderLemmas.FinalValueRejected | HeaderLemmas.CorrectedReadsFinalValue |

# filters2autoconsent core, modelled in Dafny

filters2autoconsent converts a line-oriented rule language into autoconsent configuration
records. A rule looks like `domain.tld##selector`. It may be followed by `+`/`-` chain
lines of actions. Each record says how to detect a cookie-consent popup and how to opt in
or out. This project models the two pieces of the core:

- **The transformer** (`src/transformer/index.ts`) turns one parsed rule into one `AutoCmp`
  record. Option lookup is by name: the first option with that name wins, and an option
  with no value still counts as present. `check` falls back to `any` and `method` to
  `display`. Numeric options go through `parseInt(text, 10)`, and `NaN` becomes 0. Each of
  the nine handled action keywords maps to one `CmpAction` variant. Other keywords are
  dropped. Each chain's entries go to `optIn` (positive chain) or `optOut` (negative
  chain), in order. Module `Transformer` holds the option helpers and the nine
  `Transform*Action` functions as functions. `transform` is a method with loops, proved
  against the specification functions `MapActions` and `Collect`. Its inner per-chain loop
  is the separate method `TransformChainActions`. `Transform` then updates the record's
  `runContext.urlPattern` after building it, as the source does.
- **The parser as it is written** (`src/parser/index.ts`) finds line breaks and `##` with
  `indexOf` and builds a `File` node of `RuleDeclaration` nodes with integer spans.
  `parse` searches for line breaks in the one-character string `"\n"` instead of the
  input (line 96). So the next line break is always the end of the input, and a non-empty
  input gives exactly one rule spanning all of it. That rule has domain `[0, p)` and
  selector `[p + 2, |text|)`, where `p` is the first `##` or -1. Spans are `int`s because
  a missing `##` gives -1. `parseRuleDeclaration`'s loop recomputes `end` from `i`, not
  from `end`. So when the character after that line break starts a chain, the loop never
  ends. A precondition excludes exactly that case.

Supporting modules:

- `JsString` models `indexOf` and `slice` with JavaScript's clamping and negative-index
  rules.
- `JsNumber` models `parseInt(text, 10)`: skip JavaScript white space, take an optional
  sign, then the longest digit run. `None` stands for `NaN`.
- `Autoconsent` holds the output schema, from `src/types/autoconsent.ts`.
- `RuleTree` holds the parsed-rule fields the transformer reads.
- `Lists` holds `FlatMap`, the "push each element's entries in order" pattern, with its
  lemmas.
- `Wrappers` holds `Option`.

The rule grammar also describes chain, action and rule-option recognition inside the
parser. The parser code does not implement it: its nodes have no `chains`, `options` or
identifier `value`. This model follows the code. The transformer's input is therefore
declared directly in `RuleTree`, from the fields the transformer reads.

## Model

| member | source | states |
|---|---|---|
| `Transformer.FindOption` | src/transformer/index.ts:5-7 | the index `find` returns is the first option with that name; none means no option has the name |
| `Transformer.HasKey` | src/transformer/index.ts:5 | true iff some option has the name, whatever its value |
| `Transformer.GetOption` | src/transformer/index.ts:7 | the value text of the first option with the name; nothing when that option has no value or no option has the name |
| `Transformer.GetOptionInsertOther` | src/transformer/index.ts:7 | an option with a different name inserted anywhere does not change the lookup |
| `Transformer.IsVisibleCheckOption` | src/transformer/index.ts:9 | true exactly when the text is present and is one of `any`, `all`, `none` |
| `Transformer.IsHideMethodOption` | src/transformer/index.ts:11 | true exactly when the text is present and is one of `display`, `opacity` |
| `Transformer.UseCheck` | src/transformer/index.ts:9-19 | exactly `any`, `all` or `none` is kept; absent or any other text (including `" all"`) gives `any` |
| `Transformer.UseMethod` | src/transformer/index.ts:11-27 | exactly `display` or `opacity` is kept; anything else or absent gives `display` |
| `Transformer.UseNumeric` | src/transformer/index.ts:29-37 | absent text gives 0; otherwise the `parseInt` value, or 0 where `parseInt` gives `NaN` (never `NaN`) |
| `Transformer.UseNumericDecimal` | src/transformer/index.ts:29-37 | leading white space followed by any integer's decimal text reads back as that integer (e.g. `" 500"` gives 500) |
| `Transformer.UseNumericNonNumeric` | src/transformer/index.ts:29-37 | text with no digit after the white space and optional sign gives 0; after a sign this includes another sign or white space (`"+-5"`, `"- 5"`) |
| `Transformer.TransformExistsAction` | src/transformer/index.ts:40-42 | an `exists` entry on the chain selector, whatever the options |
| `Transformer.TransformCheckAction` | src/transformer/index.ts:44-47 | a `visible` entry on the chain selector; `check` is the option text when that is `any`/`all`/`none`, otherwise `any` |
| `Transformer.TransformWaitForAction` | src/transformer/index.ts:49-52 | a `waitFor` entry on the chain selector whose timeout is what `useNumeric` reads from option `timeout` |
| `Transformer.TransformWaitForVisibleAction` | src/transformer/index.ts:54-58 | a `waitForVisible` entry on the chain selector; both the timeout and the check are read from option `check` |
| `Transformer.TransformClickAction` | src/transformer/index.ts:60-63 | a `click` entry on the chain selector; `all` iff some option is named `all` |
| `Transformer.TransformWaitForThenClickAction` | src/transformer/index.ts:65-69 | a `waitForThenClick` entry on the chain selector; timeout read from option `timeout`, `all` iff some option is named `all` |
| `Transformer.TransformWaitAction` | src/transformer/index.ts:71-73 | a `wait` entry: the non-zero number read from `for`, or, when `for` reads as 0 (absent, `NaN` or zero), the number read from `_` |
| `Transformer.TransformHideAction` | src/transformer/index.ts:75-78 | a `hide` entry on the chain selector; method is the option text when that is `display`/`opacity`, otherwise `display` |
| `Transformer.TransformEvalAction` | src/transformer/index.ts:80-82 | an `eval` entry holding the text of option `_`, or `""` when there is none |
| `Transformer.TransformAction` | src/transformer/index.ts:97-155 | each of the nine handled keywords gives exactly its own variant, carrying the chain selector (except `wait` and `eval`); any other keyword gives nothing |
| `Transformer.ActionDefaults` | src/transformer/index.ts:44-82 | with the option absent: `check` gives `any` (and `waitForVisible` timeout 0), `method` gives `display`, `timeout` gives 0 on `waitFor` and `waitForThenClick`, `wait` without `for` and `_` gives 0, `eval` gives `""` |
| `Transformer.WaitForVisibleSharesCheckText` | src/transformer/index.ts:54-58 | `waitForVisible` reads its timeout from the `check` text, so check `all`/`none` always comes with timeout 0 |
| `Transformer.WaitForVisibleIgnoresTimeout` | src/transformer/index.ts:54-58 | an option named `timeout`, inserted anywhere, does not change `waitForVisible` |
| `Transformer.ClickAllIsPresence` | src/transformer/index.ts:60-69 | `all` on `click` and `waitForThenClick` is presence of option `all`, whatever its value |
| `Transformer.WaitExplicitZeroFallsThrough` | src/transformer/index.ts:71-73 | `wait` with `for: 0` inserted anywhere equals `wait` without `for`; both read option `_` |
| `Transformer.WaitForTimeoutWithSpace` | src/transformer/index.ts:49-52 | `waitFor(timeout: 500)`, whose value text is `" 500"`, gives timeout 500 |
| `Transformer.TransformChainActions` | src/transformer/index.ts:92-156 | the inner loop's `actions` list equals `MapActions` of the chain's actions with the chain's selector |
| `Transformer.UnknownKeywordDropped` | src/transformer/index.ts:152-154 | an action with an unknown keyword, inserted anywhere in a chain, contributes nothing and leaves the other entries unchanged |
| `Transformer.MapActionsAllHandled` | src/transformer/index.ts:94-155 | when every keyword is handled, there is exactly one entry per action, in source order |
| `Transformer.CollectPolarity` | src/transformer/index.ts:158-162 | an entry is in the list of one polarity iff some chain of that polarity produced it |
| `Transformer.CollectIgnoresOtherPolarity` | src/transformer/index.ts:158-162 | a chain of the other polarity, inserted anywhere, does not change a list |
| `Transformer.CollectAppend` | src/transformer/index.ts:91-163 | the lists of concatenated chains are the concatenated lists: chains do not affect each other |
| `Transformer.RuleName` | src/transformer/index.ts:85-86 | `name` is the value of the first rule option named `name` when it has one (even `""`), else the domain text |
| `Transformer.Transform` | src/transformer/index.ts:84-196 | name, `detectCMP = [exists]`, `detectPopup = [visible, any]`, `optIn`/`optOut` equal to `Collect` by polarity, flags true iff the option is present, `urlPattern` present iff option `at` has a non-empty value, no `prehideSelectors` or `test` |
| `Transformer.TransformTestExpectation` | src/transformer/index.test.ts:5-50 | the test's rule maps to the expected name, flags and opt-in/opt-out lists |
| `Transformer.TransformUnitTest` | src/transformer/index.test.ts:5-50 | `Transform` of the test's rule returns exactly the record the test's `deepEqual` expects |
| `Transformer.TwoChainExample` | src/parser/index.test.ts:19-137 | the two-chain rule maps to `optOut = [waitFor div 500, click div]` and `optIn = [waitFor button 0, click button all]` |
| `JsNumber.ParseIntAfterWhitespace` | src/transformer/index.ts:30 | `ParseInt`, which skips white space one character at a time, reads exactly what follows the whole leading white-space run |
| `JsNumber.ParseIntRoundTrip` | src/transformer/index.ts:30 | `parseInt` inverts the decimal rendering of every integer |
| `JsNumber.ParseIntSkipsWhitespace` | src/transformer/index.ts:30 | leading white space does not change what `parseInt` reads |
| `JsNumber.ParseIntDigitsThenTail` | src/transformer/index.ts:30 | a digit run followed by a non-digit reads as the digit run's value |
| `JsNumber.ParseIntSignedDigitRun` | src/transformer/index.ts:30 | white space, a sign, then a digit: the longest digit run's value, negated for `-` (`"-12px"` gives -12, `"+5"` gives 5, `"-007"` gives -7) |
| `JsNumber.ParseIntNoDigits` | src/transformer/index.ts:30 | no digit after white space and an optional sign gives `NaN`; after a sign this includes another sign or white space (`"+-5"`, `"- 5"`) |
| `JsString.IndexOf` | src/parser/index.ts:55 | gives -1 or the least index at or after the clamped start where the search text occurs |
| `JsString.Slice` | src/parser/index.test.ts:14-16 | in-range bounds give the substring; a negative end counts from the end |
| `Parser.GetNextLineBreakOrEoF` | src/parser/index.ts:43-51 | gives the first `'\n'` strictly after `i`, or `eof` when there is none |
| `Parser.IsRuleDeclarationLine` | src/parser/index.ts:54-58 | gives the position of the next `##` (-1 when missing) and whether it lies before `nextLineBreak`, so -1 counts as found whenever `nextLineBreak >= 0` |
| `Parser.ParseRuleDeclaration` | src/parser/index.ts:60-85 | rule start `i`, domain `[i, nextRuleDeclaration)`, selector `[nextRuleDeclaration + 2, nextLineBreak)`, and an `end` not followed by `+`/`-` (`nextLineBreak` unless the loop ran once) |
| `Parser.Parse` | src/parser/index.ts:87-113 | never fails; root span `[0, length)`; empty text gives no rules; non-empty text gives exactly the one whole-text rule |
| `Parser.NextLineBreakIsAlwaysEof` | src/parser/index.ts:95-96 | the line-break search in `parse` always gives the end of the input |
| `Parser.WholeTextRuleSpans` | src/parser/index.ts:95-110 | with a `##` present: the rule slice is the whole text, and domain slice + `##` + selector slice rebuild it, the domain having no `##` |
| `Parser.WholeTextRuleWithoutMarker` | src/parser/index.ts:54-82 | with no `##`: domain span `[0, -1)` (sliced, the text minus its last character) and selector span `[1, length)` |
| `Parser.ParseDomainTldTest` | src/parser/index.test.ts:4-17 | `Parse("domain.tld##test")` spans the input and holds one rule whose slices are the input, `domain.tld` and `test` |
| `Parser.DomainTldExample` | src/parser/index.test.ts:4-17 | for `domain.tld##test` the rule slice is the input, the domain slice `domain.tld` and the selector slice `test` |

## Left out

- Command-line handling, reading files or standard input, creating directories, JSON
  serialization and printing (`src/index.ts`) are I/O and are not modelled.
- `use` (`src/index.ts`) is not modelled. It composes `parse` and `transform`, but the
  parser's nodes lack the `chains`, `options` and `value` fields that `transform` reads.
- Chain, action and option recognition is not part of this model. The parser code does not
  implement it. The transformer takes its input tree as a value instead.
- The `SyntaxError` class is declared in the parser but never raised, so `Parse` has no
  error result.
- The `if`/`then`/`else` and `any` variants of `CmpAction` are not declared. `transform`
  never produces them.
- The `type` tag of each node is implied by the datatype it belongs to.
- `Transformer.HasKey` and `Transformer.GetOption` take the option list rather than the
  node that holds it.
- `JsNumber.ParseInt`: integers are unbounded. The model does not capture JavaScript's
  overflow to `Infinity` or its precision loss on very long digit runs.
- `-0` is modelled as 0.
- Strings are sequences of characters indexed by position. UTF-16 code-unit indexing is
  not modelled.
- `Parser.ParseRuleDeclaration` requires that its loop terminate. In the source the loop
  never ends when the characters after both line breaks it examines start a chain. `Parse`
  never reaches that case.

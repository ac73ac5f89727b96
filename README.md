# lesshint core in Dafny

lesshint is a linter for LESS style sheets. This project models two parts of it.

The first is the command-line runner (`Runner.prototype.run`). It works in these steps:
- It refuses an empty argument list.
- It loads the configuration and merges the `--exclude` and `--linters` options into it.
- It checks every path.
- It flattens the per-file result lists into one list of findings and hands them to the reporter.
- It turns the findings and the `--max-warnings` budget into an exit code: 0 OK, 1 WARNING, 2 ERROR, 66 NOINPUT, 70 SOFTWARE or 78 CONFIG.

The second is four rules:
- `spaceAroundComma`: the whitespace around commas in a declaration value or a mixin's parameters, under the styles `after`, `before`, `both` and `none`.
- `spaceAfterPropertyName`: the token after a property name, under the styles `no_space` and `one_space`.
- `borderZero`: `border: 0` against `border: none`.
- `hexLength`: long against short hex colours.

The JavaScript semantics the rules lean on are modelled explicitly:
- `null`, `undefined`, a returned list and a thrown error are four distinct outcomes (`LintTypes.LintOutcome`).
- Reading a property of `undefined` is the outcome `Threw(TypeError)`. It is not a precondition.
- `String.prototype.replace` with a string pattern replaces only the first occurrence.
- `sprintf` and `util.format` fill `%s` directives from left to right.
- `parseInt(x, 10) || 0` reads the budget, `""` and `undefined` are falsy, and `[].concat.apply` flattens one level.

Modules, in dependency order:
- `LintTypes`: the outcome vocabulary.
- `JsStrings`: newline stripping, `indexOf`, first-occurrence `replace`, and `%s` formatting with up to three arguments.
- `JsNumbers`: `parseInt` in radix 10, following section 18.2.5 of ECMAScript 2015 (19.2.5 in later editions), and `String(n)` for integers.
- `Gonzales`: the parse-tree node the gonzales-pe parser produces: `first`, `first(type)` and the child list.
- One module per rule: `BorderZero`, `HexLength`, `SpaceAfterPropertyName` and `SpaceAroundComma`.
- `Runner`.

Three members keep the source's form:
- `SpaceAfterPropertyName.Rule` is a class, because the rule object's `message` field is rewritten for good by a `one_space` violation.
- `SpaceAroundComma.ValueAst` holds the parsed value's `raws.before` and `raws.after` strings in arrays. `SpaceAroundComma.Lint` walks it with a loop and strips newlines in place. Both are proved against the functional walk `Walk` and its reference definition `Expected`.
- `Runner.Config` is a class. `Runner.PrepareConfig` pushes into the loaded object's lists, so the caller's object is the one that changes.

`borderZero` and `hexLength` are pure functions of the declaration, as in the source.

## Model

| member | source | states |
|---|---|---|
| Runner.PrepareConfig | lib/runner.js:37-49 | A missing configuration becomes a fresh object. A loaded one is the object that gets updated. Missing lists become empty. The `--exclude` pattern is appended to `excludedFiles` and the `--linters` list to `linters`, after what was there. A non-empty `--exclude` ends up last in `excludedFiles`; an empty one leaves the configured list as it was. |
| Runner.MergedKeepsBoth | lib/runner.js:44-48 | The merged list starts with the configured entries and ends with those given on the command line. |
| Runner.CheckAll | lib/runner.js:59-61 | One result per path, in argument order, each the result of checking that path under the `excludedFiles` and `linters` handed to `lesshint.configure`. |
| Runner.FirstFailure | lib/runner.js:62-126 | `None` exactly when every path was checked. Otherwise it is the first failed path's result. |
| Runner.FlattenAppend | lib/runner.js:68 | Flattening distributes over concatenation of the per-file lists. |
| Runner.FlattenPosition | lib/runner.js:68 | The findings of the i-th path sit after all findings of earlier paths and before those of later paths. |
| Runner.FlattenContents | lib/runner.js:68 | A finding is in the flattened list if and only if it is in one of the per-file lists. |
| Runner.CountWarningsIsCardinality | lib/runner.js:113-115 | The left fold that counts warnings equals the number of positions whose severity is `warning`. |
| Runner.Run | lib/runner.js:21-137 | No arguments gives 66 with its message; nothing is configured or reported, and the loaded object is unchanged. A loader throw gives 78 with the loader's message. Otherwise the merged configuration is handed on, every path is checked under its merged `excludedFiles` and `linters`, and the exit and the reported findings are those of `AfterChecks` on the per-path results. |
| Runner.Settle | lib/runner.js:70-125 | Definition of the `then` callback on the flattened findings. Its properties are stated by Runner.SettleCodes, Runner.MissingReporter, Runner.NothingFound, Runner.ErrorDominates, Runner.WarningBudget, Runner.BudgetBoundary and Runner.NegativeBudget. |
| Runner.AfterChecks | lib/runner.js:62-134 | Definition of `Vow.all(...).then(...).fail(...)` over the per-path results. Its properties are stated by Runner.FailedPath, Runner.AnyFailedPath, Runner.EverythingReported and Runner.MissingReporter. |
| Runner.Budget | lib/runner.js:103 | Definition of `parseInt(maxWarnings, 10)`, with NaN and 0 both giving 0. Its properties are stated by Runner.BudgetOfNumber, Runner.BudgetDefaults and Runner.BudgetOfFraction. |
| Runner.Flatten | lib/runner.js:68 | Definition of `[].concat.apply([], results)`. Its properties are stated by Runner.FlattenAppend, Runner.FlattenPosition and Runner.FlattenContents. |
| Runner.CountWarnings | lib/runner.js:113-115 | Definition of the warning-counting `reduce`, from the left. Runner.CountWarningsIsCardinality states what it counts. |
| Runner.HasError | lib/runner.js:91-93 | Definition of `results.some(severity === 'error')`. Runner.ErrorDominates states its effect on the exit. |
| Runner.SettleCodes | lib/runner.js:70-125 | The callback resolves only with 0 and rejects only with 1 or 2. The reporter is handed the complete findings exactly when it exists. |
| Runner.MissingReporter | lib/runner.js:70-81 | An unknown reporter name gives a rejection with code 2 and "Could not find reporter NAME.", and nothing is reported. |
| Runner.FailedPath | lib/runner.js:126-134 | A path whose check fails gives a rejection with code 70, naming that file and its stack, and nothing is reported. |
| Runner.AnyFailedPath | lib/runner.js:126-134 | Whichever path fails, and whichever failure is seen first, the run rejects with 70 and nothing is reported. |
| Runner.EverythingReported | lib/runner.js:68-73 | With a reporter, a finding is reported if and only if some path produced it. |
| Runner.NothingFound | lib/runner.js:83-89 | No findings means exit 0 whatever the budget. |
| Runner.ErrorDominates | lib/runner.js:91-101 | Any finding of severity `error` gives code 2 whatever the warnings and the budget. |
| Runner.WarningBudget | lib/runner.js:103-125 | For a non-empty, error-free list of findings, the exit is 1 if and only if the budget is not -1 and the warnings exceed it. Otherwise it is 0. An empty list exits 0 whatever the budget (Runner.NothingFound). |
| Runner.BudgetOfNumber | lib/runner.js:103 | `--max-warnings` written as the decimal of any integer, 0 and -1 included, is read back as that integer. |
| Runner.BudgetDefaults | lib/runner.js:103 | A missing budget gives 0. So does a text that is empty or starts with something other than a digit, a sign or white space. |
| Runner.BudgetOfFraction | lib/runner.js:103 | An integer followed by non-digit text, such as "2.5" or "3abc", is read as that integer. |
| Runner.BudgetBoundary | lib/runner.js:117-125 | Warnings equal to the budget exit 0; one more exits 1. |
| Runner.NegativeBudget | lib/runner.js:105-117 | A budget below -1 makes any non-empty, error-free list of findings a WARNING, even one with no warnings. |
| Runner.TwoWarnings | lib/runner.js:91-115 | Two findings of severity `warning` count as two warnings and hold no error. |
| Runner.TwoWarningsOverZero | lib/runner.js:103-120 | Two warnings with `--max-warnings 0` reject with 1, and both are reported. |
| JsNumbers.ParseRendered | lib/runner.js:103 | `parseInt` reads back what `String(n)` writes, after any leading white space and before any non-digit text. |
| JsNumbers.ParseRenderedPrefix | lib/runner.js:103 | With no white space in front, `parseInt` reads back `String(n)` before any text that does not continue the number. |
| JsNumbers.MinusSign | lib/runner.js:103 | A leading `-` negates the value of the digits after it, and NaN stays NaN. |
| JsNumbers.DigitsRendered | lib/runner.js:103 | The digit reader returns n for the decimal rendering of n followed by non-digit text. |
| JsNumbers.ParseRoundTrip | lib/runner.js:103 | `parseInt(String(n), 10) == n` for every integer. |
| JsNumbers.ParseInt10 | lib/runner.js:103 | Definition of `parseInt(s, 10)` for the integer part, `None` standing for NaN. Its properties are stated by JsNumbers.ParseRendered, JsNumbers.ParseRoundTrip and JsNumbers.NotANumber. |
| JsNumbers.NotANumber | lib/runner.js:103 | Text that does not start, after white space, with a digit or a sign and a digit is NaN. |
| JsNumbers.TrimStart | lib/runner.js:103 | The result is a suffix of the input. What was dropped is all white space, and the result does not start with white space. |
| JsNumbers.DigitPrefix | lib/runner.js:103 | The result is the longest all-digit prefix. |
| JsNumbers.NatToStringValue | lib/runner.js:103 | The decimal rendering of n has value n. |
| JsNumbers.DigitPrefixOf | lib/runner.js:103 | A digit run followed by a non-digit is exactly the digit prefix. |
| JsNumbers.TrimStartOf | lib/runner.js:103 | Leading white space followed by a non-white character is exactly what is trimmed. |
| JsNumbers.SignedRendered | lib/runner.js:103 | Below the white space, the signed integer reader inverts `String(n)`. |
| BorderZero.Lint | lib/linters/border_zero.js:12-61 | A report is one message at the start of the value node, with the `none` text under style `none` and the `zero` text otherwise. An `InvalidSetting` error arises only from a style other than `none` and `zero`. |
| BorderZero.NotABorderProperty | lib/linters/border_zero.js:14-25 | A property outside the five border properties returns `null` under any style. |
| BorderZero.NotZeroOrNone | lib/linters/border_zero.js:27-33 | A border whose value is neither `0` nor `none` returns `null` under any style. |
| BorderZero.StyleNone | lib/linters/border_zero.js:35-59 | Under `none`, `0` is reported with the "should use \"none\"" message at the value. `none` returns `undefined`. |
| BorderZero.StyleZero | lib/linters/border_zero.js:35-59 | Under `zero`, `none` is reported with the "should use 0" message at the value. `0` returns `undefined`. |
| BorderZero.UnknownStyle | lib/linters/border_zero.js:48-51 | Any other style throws "Invalid setting value for borderZero: STYLE" if and only if both filters let the declaration through. |
| BorderZero.StylesAreComplementary | lib/linters/border_zero.js:35-52 | For a border set to `0` or `none`, exactly one of the two styles reports it. |
| HexLength.Lint | lib/linters/hex_length.js:9-45 | `long` reports exactly the 3-digit colours. `short` reports exactly the 6-digit colours whose digit pairs agree. A known style otherwise returns `undefined`, and any other style throws. A report is one position-less message built from `#content` and the style. |
| HexLength.MessageText | lib/linters/hex_length.js:40-44 | `sprintf` of the template puts the colour first and the style second: COLOUR " should be written in the " STYLE "-form format." |
| HexLength.ExpandShortenRoundTrip | lib/linters/hex_length.js:24-26 | `Expand` and `Shorten` are reference definitions of the long and short notations of section 5.2 of CSS Color Module Level 4; the rule never builds either form. Shortening an expanded colour gives it back, and a colour passing the pair test of line 26 (`CanShorten`) is the expansion of its short form. |
| HexLength.StylesAgreeOnForms | lib/linters/hex_length.js:16-33 | `long` reports every 3-digit colour and accepts its expansion. `short` reports every expansion and every shortenable 6-digit colour, and accepts their short forms. |
| HexLength.UnshortenableAcceptedByBoth | lib/linters/hex_length.js:24-31 | A 6-digit colour whose pairs differ passes under both styles. |
| HexLength.DigitsAreNotChecked | lib/linters/hex_length.js:18-28 | The regular expressions only ever confirm validity, so `#xyz` is reported under `long` like any 3-character colour. |
| SpaceAfterPropertyName.Rule.Lint | lib/linters/space_after_property_name.js:9-52 | The outcome is that of `Outcome` on the declaration's children and the template the object held before the call. The template field becomes the rewritten text after a `one_space` violation and is otherwise kept. It always stays one of the two templates. The method requires the node's content to be a child list: the rule registers only for `declaration` nodes (`nodeTypes: ['declaration']`, line 6), and a gonzales-pe declaration always has children. |
| SpaceAfterPropertyName.MaybeSpace | lib/linters/space_after_property_name.js:19-23 | Definition of `node.content[findIndex(...) + 1]`, `None` standing for `undefined`. Its properties are stated by SpaceAfterPropertyName.CheckedElement and SpaceAfterPropertyName.CheckedElementWithoutProperty. |
| SpaceAfterPropertyName.Judge | lib/linters/space_after_property_name.js:25-43 | Definition of the style switch. Its properties are stated by SpaceAfterPropertyName.NoSpace, SpaceAfterPropertyName.OneSpace, SpaceAfterPropertyName.PropertyLast and SpaceAfterPropertyName.UnknownStyle. |
| SpaceAfterPropertyName.TemplateAfter | lib/linters/space_after_property_name.js:35 | Definition of the template left in the object after a call. Its properties are stated by SpaceAfterPropertyName.OneSpace, SpaceAfterPropertyName.RewriteKeepsTemplate and SpaceAfterPropertyName.RewriteIdempotent. |
| SpaceAfterPropertyName.Outcome | lib/linters/space_after_property_name.js:9-52 | Definition of what `lint` returns or throws. Its properties are stated by SpaceAfterPropertyName.NoSpace, SpaceAfterPropertyName.OneSpace, SpaceAfterPropertyName.UnknownStyle and SpaceAfterPropertyName.AtMostOneMessage. |
| SpaceAfterPropertyName.CheckedElement | lib/linters/space_after_property_name.js:18-23 | The element checked is the one right after the first `property` element. |
| SpaceAfterPropertyName.CheckedElementWithoutProperty | lib/linters/space_after_property_name.js:19-23 | Without a `property` element, `findIndex` is -1 and the first element is checked. |
| SpaceAfterPropertyName.NoSpace | lib/linters/space_after_property_name.js:26-50 | Under `no_space`, the rule reports if and only if the checked element is a space. The report is one message at its start; the template is untouched. |
| SpaceAfterPropertyName.OneSpace | lib/linters/space_after_property_name.js:32-50 | Under `one_space`, the rule reports unless the checked element is a space holding exactly one blank. A report rewrites the template. |
| SpaceAfterPropertyName.PropertyLast | lib/linters/space_after_property_name.js:23-33 | A property with nothing after it makes both known styles throw a TypeError. |
| SpaceAfterPropertyName.UnknownStyle | lib/linters/space_after_property_name.js:39-42 | Any other style throws "Invalid setting value for spaceAfterPropertyName: STYLE" and keeps the template. |
| SpaceAfterPropertyName.AtMostOneMessage | lib/linters/space_after_property_name.js:45-51 | A report has exactly one message, at the checked element. |
| SpaceAfterPropertyName.NoSpaceText | lib/linters/space_after_property_name.js:45-50 | The `no_space` text from the initial template is "Colon after property should not be preceded by any space." |
| SpaceAfterPropertyName.RewrittenTemplate | lib/linters/space_after_property_name.js:35 | The rewrite turns the template into "Colon after property should%s be preceded by one space.": the `a` of "after" is not an `any`. |
| SpaceAfterPropertyName.RewriteIdempotent | lib/linters/space_after_property_name.js:35 | Rewriting the rewritten template changes nothing. |
| SpaceAfterPropertyName.RewriteKeepsTemplate | lib/linters/space_after_property_name.js:35 | From either template the rewrite leaves the rewritten one. |
| SpaceAfterPropertyName.RewrittenMessage | lib/linters/space_after_property_name.js:32-50 | A message made from the rewritten template reads "Colon after property should", the argument, then "be preceded by one space". So the `one_space` text is "Colon after property should be preceded by one space.", and, because the rewrite persists, a later `no_space` report reads "should not be preceded by one space". |
| SpaceAroundComma.Lint | lib/linters/space_around_comma.js:11-89 | A node with neither `params` nor type `decl` returns `undefined` and leaves the tree alone. Otherwise the result is `Outcome` of the walk, and the tree's `raws` arrays hold the walk's final state. |
| SpaceAroundComma.VisitNode | lib/linters/space_around_comma.js:27-83 | One walk callback on the arrays performs `Visit`: newline stripping in place, then the style switch. |
| SpaceAroundComma.TargetOf | lib/linters/space_around_comma.js:12-25 | Definition of which text is parsed and from which column: the selector when `params` is set, the value of a `decl` shifted by the property and separator lengths, nothing otherwise. SpaceAroundComma.RgbTarget and SpaceAroundComma.Lint state its use. |
| SpaceAroundComma.Check | lib/linters/space_around_comma.js:49-76 | Definition of the style switch for one comma. Its properties are stated by SpaceAroundComma.CheckFailures, SpaceAroundComma.AfterStyle, SpaceAroundComma.BeforeStyle, SpaceAroundComma.BothStyle and SpaceAroundComma.NoneStyle. |
| SpaceAroundComma.Visit | lib/linters/space_around_comma.js:27-83 | Definition of one walk callback on the `raws` state; its own contract keeps the shape of the `raws` lists. SpaceAroundComma.VisitStep and SpaceAroundComma.VisitNode state its effect. |
| SpaceAroundComma.Walk | lib/linters/space_around_comma.js:27-84 | Definition of the walk over the first k nodes; its own contract keeps the shape of the `raws` lists. SpaceAroundComma.WalkStops, SpaceAroundComma.WalkWithoutFault, SpaceAroundComma.WalkFault and SpaceAroundComma.WalkMatchesReference state what it computes. |
| SpaceAroundComma.Outcome | lib/linters/space_around_comma.js:86-88 | Definition of what `lint` returns after the walk. Its properties are stated by SpaceAroundComma.KnownStyle, SpaceAroundComma.UnknownStyle and SpaceAroundComma.RgbWithoutSpaces. |
| SpaceAroundComma.WalkStops | lib/linters/space_around_comma.js:27-84 | Once the walk has thrown, later nodes change nothing. |
| SpaceAroundComma.CheckFailures | lib/linters/space_around_comma.js:49-76 | Under a known style a failure is a TypeError, possible only for a comma with no next sibling. Under an unknown style every comma throws "Invalid setting value for spaceAfterComma: STYLE". |
| SpaceAroundComma.VisitStep | lib/linters/space_around_comma.js:36-83 | One callback from a state the reference describes extends it by one node. |
| SpaceAroundComma.WalkWithoutFault | lib/linters/space_around_comma.js:27-84 | While no comma throws, the walk pushes exactly the reference messages, and each `raws.before` is the original with newlines removed once its turn has come. |
| SpaceAroundComma.WalkFault | lib/linters/space_around_comma.js:27-84 | If some comma throws, the walk throws the error of the first comma whose switch throws; no comma before it fails. |
| SpaceAroundComma.WalkMatchesReference | lib/linters/space_around_comma.js:27-88 | The walk ends without an error if and only if no comma throws. In that case its messages are the reference messages. |
| SpaceAroundComma.KnownStyle | lib/linters/space_around_comma.js:49-88 | Under a known style the rule throws a TypeError if and only if some comma gets to read a missing next sibling. Otherwise it returns the reference messages, or `undefined` when there are none. |
| SpaceAroundComma.NoCommasNoMessages | lib/linters/space_around_comma.js:32-34 | A tree without commas produces no message. |
| SpaceAroundComma.UnknownStyle | lib/linters/space_around_comma.js:74-75 | An unknown style throws at the first comma if there is one. Otherwise the rule returns `undefined`. |
| SpaceAroundComma.AfterStyle | lib/linters/space_around_comma.js:50-55 | Under `after`, a last-child comma throws. Any other comma is flagged if and only if its next sibling's stripped `raws.before` is not one space. |
| SpaceAroundComma.BeforeStyle | lib/linters/space_around_comma.js:56-61 | Under `before`, nothing throws. A comma is flagged if and only if its own `raws.before` is not one space. |
| SpaceAroundComma.BothStyle | lib/linters/space_around_comma.js:62-67 | Under `both`, a comma is flagged if either side is not one space. It throws only when its own side is fine and it is the last child. |
| SpaceAroundComma.NoneStyle | lib/linters/space_around_comma.js:68-73 | Under `none`, a comma is flagged if either side has any whitespace. It throws only when its own side is empty and it is the last child. |
| SpaceAroundComma.AtMostOnePerComma | lib/linters/space_around_comma.js:78-83 | There are never more messages than commas. |
| SpaceAroundComma.ExpectedColumns | lib/linters/space_around_comma.js:78-83 | Every message belongs to a comma and sits at the target's column plus that comma's column minus one. |
| SpaceAroundComma.AfterFormatted | lib/linters/space_around_comma.js:50-55 | `util.format` gives "Commas should be followed by one space." |
| SpaceAroundComma.BeforeFormatted | lib/linters/space_around_comma.js:56-61 | `util.format` gives "Commas should be preceded by one space." |
| SpaceAroundComma.BothFormatted | lib/linters/space_around_comma.js:62-67 | `util.format` gives "Commas should be preceded and followed by one space." |
| SpaceAroundComma.NoneFormatted | lib/linters/space_around_comma.js:68-73 | `util.format` gives "Commas should not be preceded nor followed by any space." |
| SpaceAroundComma.RgbTarget | lib/linters/space_around_comma.js:20-22 | For `color: rgb(255,255,255);` the parsed value starts at column 8. |
| SpaceAroundComma.RgbNoFault | test/specs/linters/space_around_comma.js:35-46 | Neither comma of `rgb(255,255,255)` is a last child, so nothing throws. |
| SpaceAroundComma.RgbExpected | test/specs/linters/space_around_comma.js:35-46 | The reference messages are two "followed by one space" messages, at columns 15 and 19. |
| SpaceAroundComma.RgbWithoutSpaces | test/specs/linters/space_around_comma.js:35-52 | The rule returns exactly those two messages. |
| Gonzales.FirstOfType | lib/linters/border_zero.js:20-27 | `first(type)` returns a child of that type with no child of that type before it. It returns `None` if and only if there is no such child. |
| Gonzales.FirstChild | lib/linters/border_zero.js:20-28 | `first()` returns the first child, `content[0]`. It returns `None` if and only if there are no children. |
| Gonzales.FindIndexFrom | lib/linters/space_after_property_name.js:19-21 | The index found holds the first element of the type, scanning from the given start. -1 means there is none. |
| JsStrings.StripNewlines | lib/linters/space_around_comma.js:41-47 | The result is no longer than the input and holds no `\n`. |
| JsStrings.StripIdempotent | lib/linters/space_around_comma.js:41-47 | Stripping twice is stripping once, so a string that a later callback strips again does not change. |
| JsStrings.StripWithoutNewlines | lib/linters/space_around_comma.js:41-47 | A string without newlines is left as it is. |
| JsStrings.StripConcat | lib/linters/space_around_comma.js:42 | Stripping distributes over concatenation. |
| JsStrings.StripKeepsOtherCharacters | lib/linters/space_around_comma.js:42 | Every character other than `\n` occurs as often as before, and `\n` not at all. |
| JsStrings.IndexFrom | lib/linters/space_after_property_name.js:35 | The index found is the first occurrence at or after the start. -1 means there is no occurrence. |
| JsStrings.ReplaceFirst | lib/linters/space_after_property_name.js:35 | Definition of `this.message.replace('any', 'one')`: `String.prototype.replace` with a string pattern. Its properties are stated by JsStrings.ReplaceFirstMeaning and JsStrings.LeastOccurrence. |
| JsStrings.ReplaceFirstMeaning | lib/linters/space_after_property_name.js:35 | `ReplaceFirst`, stated against occurrences rather than against the search: when the pattern occurs nowhere the string is unchanged; for the occurrence with none before it, that occurrence is replaced and the text on both sides kept. |
| JsStrings.LeastOccurrence | lib/linters/space_after_property_name.js:35 | `indexOf` is -1 if and only if the pattern occurs nowhere, and otherwise it is the one occurrence with none before it. |
| JsStrings.Sprintf1Text | lib/linters/space_after_property_name.js:49 | A template with one directive and no other `%` gets the argument at the directive. |
| JsStrings.Sprintf2Text | lib/linters/hex_length.js:42 | Two directives are filled left to right. |
| JsStrings.Format3Text | lib/linters/space_around_comma.js:52 | Three directives are filled left to right. |
| JsStrings.ReplaceFirstText | lib/linters/space_after_property_name.js:35 | In a text made of pieces, the replacement lands on the pattern after pieces that cannot hold it. |
| JsStrings.ReplaceFirstAbsent | lib/linters/space_after_property_name.js:35 | A string without the pattern is not changed. |
| JsStrings.Sprintf1 | lib/linters/space_after_property_name.js:49 | Definition of `sprintf` with one `%s`: the first directive is replaced. JsStrings.Sprintf1Text states the result for a template given in pieces. |
| JsStrings.Sprintf2 | lib/linters/hex_length.js:42 | Definition of `sprintf` with two `%s` directives, filled left to right. JsStrings.Sprintf2Text and HexLength.MessageText state its results. |
| JsStrings.Format3 | lib/linters/space_around_comma.js:52 | Definition of `util.format` with three `%s` directives, filled left to right. JsStrings.Format3Text and the four SpaceAroundComma formatting lemmas state its results. |

## Left out

- HexLength.Lint, SpaceAroundComma.TargetOf, SpaceAroundComma.ExpectedColumns: JavaScript's `.length` and `str[i]` count UTF-16 code units, while a Dafny `string` counts Unicode scalar values. The colour length test, the pair comparison and the column offset `prop.length + raws.between.length` therefore agree with the source only for text without characters outside the Basic Multilingual Plane. For example, the content `😀a` has length 4 with its `#` in JavaScript and is reported under `long`; the model counts 3 and returns `undefined`.
- File I/O, the configuration loader and the parsers. The loader becomes the `ConfigLoad` and `Config?` parameters of `Runner.Run`. `lesshint.checkPath` becomes the `check` function parameter, which is given the merged `excludedFiles` and `linters` that `lesshint.configure` receives. The gonzales-pe and postcss-values-parser trees are given as inputs: `Gonzales.Node` and, for `spaceAroundComma`, the `ValueAst` listing. In that listing a comma node has no children.
- Vow's promises. `Vow.all` rejects with whichever failure settles first. The model takes the first failure in argument order (`Runner.FirstFailure`), because the order in which checks finish is not modelled.
- A reporter that throws inside `report`, and the logger. The reporter is a parameter reduced to "found or not"; what it is handed is returned as `reported`.
- Configuration values of the wrong type. `excludedFiles` and `linters` are modelled as list-or-missing; a non-array truthy value, whose `push` would throw, is not modelled.
- Runner.BudgetOfNumber: `parseInt` is modelled on unbounded integers, so precision loss above 2^53 and `Infinity` are not modelled.
- JsNumbers.IsWhite: the white-space set is fixed to ECMAScript's WhiteSpace and LineTerminator code points with today's Unicode space separators. Code points whose status changed between Unicode versions, such as U+180E, follow the current tables only.
- `sprintf-js` and `util.format` are modelled for `%s` only. The templates contain no other `%`, and `%%` escapes and the other directives are not modelled.
- `decimalZero` and `colorVariables`, whose tests come with the source, are not part of this model.
- The documented behaviour says a configuration problem exits with 78 (CONFIG). In the code only a loader throw does. An invalid rule setting is thrown while a path is checked, so it surfaces through `.fail` as 70 (SOFTWARE). `Runner.FailedPath` follows the code.
- `spaceAroundComma` reads `config.style` rather than `config.spaceAroundComma.style`, and its error text names `spaceAfterComma`. The model takes the style string as given and keeps that text.
- A comma whose next sibling is missing, under `after`, `both` and `none`, reads `raws` of `undefined`. The model gives the outcome `Threw(TypeError)` (`SpaceAroundComma.CheckFailures`, `SpaceAroundComma.KnownStyle`) rather than making it a precondition.
- SpaceAroundComma.Lint does not model the parent's `index` search over arbitrary trees. The listing records for each comma whether it has a next sibling, and the sibling is the next node in walk order, as it is for a comma, which has no children.

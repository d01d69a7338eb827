# Advanced calculator front end — UI logic in Dafny

This project models the client-side logic of five components of the
advanced calculator web front end. These are the behaviours that decide
what the user sees and what is sent to the calculator service.

- **Calculator panel** (`calculator.dfy`, module `CalculatorPanel`):
  - the voice-transcript normalizer: lower-case, nine spoken-word
    substitutions, then whitespace removal;
  - the keypad, where "=" evaluates and every other key appends its label;
  - the expression buffer;
  - the blank-input guard in front of the evaluation request;
  - the failure record shown when the service cannot be reached.
- **3D surface plot** (`graph3d.dfy`, module `SurfacePlot`):
  - the seven-rule sanitizer that turns user text into JavaScript;
  - the "evaluation error gives 0" wrapper;
  - the 41 × 41 sampling grid, where `z[i][j]` is the value at `(x[j], y[i])`.
- **Statistics panel** (`statistics.dfy`, module `StatisticsPanel`):
  - the comma parser of the calculate button and the comma-or-newline
    parser of the file upload, which re-joins numbers with ", ";
  - the blank and empty-list guards;
  - the failure record;
  - the example, clear and random-data buttons.
- **Matrix editor** (`matrix.dfy`, module `MatrixEditor`):
  - the initial 2 × 2 zero operands and their re-initialisation on resize;
  - the size entry;
  - in-place cell updates on `array2` grids;
  - the request, which carries matrix B only for add, subtract and multiply;
  - the failure record.
- **Registration form** (`register.dfy`, module `Registration`): the two
  checks, in order, and the messages for each outcome.

`text.dfy` (module `Text`) defines the JavaScript string operations these
components use, over `seq<char>`:

- `\s` and `trim`;
- ASCII `toLowerCase`;
- `replace` with a global literal pattern;
- `split` on a character set;
- `join`.

`wrappers.dfy` defines `Option` and `Reply`. A `Reply` is what an awaited
service call produced: a body, or a thrown error.

Effects the components cannot see are parameters of the model:

- the service replies;
- `eval`, `parseFloat`, `parseInt`, `Math.random`;
- JavaScript number printing;
- whether the plot container is mounted;
- the file chosen for upload.

NaN is `None` wherever the source tests for it. Numbers are reals.

## Model

| member | source | states |
|---|---|---|
| Text.StripSpaces | app/components/Calculator.tsx:60 | the result of removing every `\s` character contains no whitespace |
| Text.StripNoSpace | app/components/Calculator.tsx:60 | text without whitespace is left unchanged by the removal |
| Text.StripConcat | app/components/Calculator.tsx:60 | whitespace removal distributes over concatenation |
| Text.ToLower | app/components/Calculator.tsx:50 | lower-casing keeps the length, leaves no capital, maps each A–Z to its lower-case letter and keeps every other character |
| Text.ToLowerIdempotent | app/components/Calculator.tsx:50 | lower-casing twice is lower-casing once |
| Text.BlankIffAllSpace | app/components/Calculator.tsx:19 | `!s.trim()` holds exactly when every character of `s` is whitespace |
| Text.TrimStart | app/components/StatisticsCalculator.tsx:21 | dropping leading whitespace never lengthens the text |
| Text.TrimEnd | app/components/StatisticsCalculator.tsx:21 | dropping trailing whitespace never lengthens the text |
| Text.TrimStartRemovesSpace | app/components/StatisticsCalculator.tsx:21 | trimming the start drops exactly a whitespace prefix and stops at a non-space character |
| Text.TrimEndRemovesSpace | app/components/StatisticsCalculator.tsx:21 | trimming the end drops exactly a whitespace suffix and stops at a non-space character |
| Text.Trim | app/components/StatisticsCalculator.tsx:21 | a trimmed string is empty or starts and ends with non-whitespace |
| Text.TrimPadded | app/components/StatisticsCalculator.tsx:21 | a word with non-space ends, after leading whitespace, trims back to the word |
| Text.ReplaceAll | app/components/Calculator.tsx:51-59 | `replace(/p/g, rep)` for a literal pattern: scanning left to right, each occurrence is replaced and the scan resumes after it (definition; its properties are the lemmas below) |
| Text.ReplaceEach | app/components/Calculator.tsx:51-59 | a chain of global replaces applied in table order (definition) |
| Text.ReplaceAbsent | app/components/Calculator.tsx:51-59 | a global replace of a pattern that does not occur changes nothing |
| Text.ReplaceLeavesNoMatch | app/components/Calculator.tsx:51-59 | after replacing every `q` by a replacement disjoint from `p`, `p` does not occur if it is `q` or was absent before |
| Text.ReplaceCharIsExpand | app/components/Graph3D.tsx:28 | replacing a one-character pattern expands each occurrence of that character |
| Text.ReplaceEachAbsent | app/components/Calculator.tsx:51-59 | a chain of replaces whose patterns do not occur is the identity |
| Text.ReplaceEachRemovesAll | app/components/Calculator.tsx:51-59 | when no replacement shares a character with any pattern, no pattern occurs after the chain |
| Text.Split | app/components/StatisticsCalculator.tsx:20 | `split` gives at least one field, and no field holds a separator |
| Text.Join | app/components/StatisticsCalculator.tsx:70 | `join(sep)`: the parts with the separator between consecutive parts (definition; JoinSplit and SplitJoin relate it to Split) |
| Text.JoinSplit | app/components/StatisticsCalculator.tsx:20 | joining the fields of a split on `c` with `c` gives the text back |
| Text.SplitJoin | app/components/StatisticsCalculator.tsx:20 | splitting a join on `c` of separator-free parts gives the parts back |
| Text.SplitAgrees | app/components/StatisticsCalculator.tsx:82 | splitting on two separator sets that agree on every character of the text gives the same fields |
| CalculatorPanel.VoiceTableShape | app/components/Calculator.tsx:51-59 | the nine keywords are non-empty lower-case words, and no replacement symbol contains a letter or a space |
| CalculatorPanel.Substituted | app/components/Calculator.tsx:50-59 | the transcript lower-cased and then passed through the nine replaces in source order (definition; SubstitutedHasNoKeyword states its property) |
| CalculatorPanel.Normalize | app/components/Calculator.tsx:49-60 | the stored expression contains no whitespace |
| CalculatorPanel.NormalizeIgnoresCase | app/components/Calculator.tsx:50 | a transcript and its lower-cased form normalize alike |
| CalculatorPanel.SubstitutedHasNoKeyword | app/components/Calculator.tsx:51-59 | after the nine substitutions none of the nine keywords occurs |
| CalculatorPanel.NormalizePlainText | app/components/Calculator.tsx:49-60 | lower-case text without whitespace or keyword is stored unchanged |
| CalculatorPanel.NormalizeChain | app/components/Calculator.tsx:50-60 | for a transcript that is already lower-case, where the minus, times, multiplied by, divided by, over, cubed and pi rewrites change nothing, the stored expression is the plus rewrite, then the squared rewrite, then whitespace removal |
| CalculatorPanel.RewriteMiddle | app/components/Calculator.tsx:51 | a keyword between parts that lack its first letter and one of its letters is rewritten once, in place |
| CalculatorPanel.PlusStep | app/components/Calculator.tsx:51 | "A squared plus B" becomes "A squared + B" |
| CalculatorPanel.SquaredStep | app/components/Calculator.tsx:57 | "A squared + B" becomes "A ^2 + B" |
| CalculatorPanel.StripStep | app/components/Calculator.tsx:60 | "A ^2 + B" loses its spaces |
| CalculatorPanel.MiddleKeywordsAbsent | app/components/Calculator.tsx:52-56 | the minus, times, multiplied by, divided by and over rewrites leave "A squared + B" unchanged |
| CalculatorPanel.LastKeywordsAbsent | app/components/Calculator.tsx:58-59 | the cubed and pi rewrites leave "A ^2 + B" unchanged |
| CalculatorPanel.NormalizeSquarePlus | app/components/Calculator.tsx:49-60 | spoken "A squared plus B", for operands without keyword letters, spaces or capitals, is stored as `A^2+B` |
| CalculatorPanel.NormalizeExample | app/components/Calculator.tsx:49-60 | spoken "x squared plus 1" is stored as `x^2+1` |
| CalculatorPanel.LoneKeyword | app/components/Calculator.tsx:51 | spoken "plus" is stored as `+` |
| CalculatorPanel.ShoutedKeyword | app/components/Calculator.tsx:50-51 | "PLUS" and "plus" are both stored as `+` |
| CalculatorPanel.ActionOf | app/components/Calculator.tsx:147-152 | a key evaluates exactly when it is "="; any other key appends its own label |
| CalculatorPanel.KeypadLayout | app/components/Calculator.tsx:83-89 | the keypad is 5 × 5, and its only evaluating key is at row 3, column 2 |
| CalculatorPanel.ShownResponse | app/components/Calculator.tsx:23-31 | a delivered reply is shown as is; a failure shows the sent expression with result 0, success false and "Failed to connect to calculator service" |
| CalculatorPanel.Calculator.constructor | app/components/Calculator.tsx:9-12 | the expression is empty, there is no result, and the language is en-US |
| CalculatorPanel.Calculator.AddToExpression | app/components/Calculator.tsx:70-72 | the expression becomes the old one followed by the value, with the old text kept as its prefix |
| CalculatorPanel.Calculator.ClearExpression | app/components/Calculator.tsx:74-77 | the expression is emptied and the result cleared; the language is kept |
| CalculatorPanel.Calculator.OnInput | app/components/Calculator.tsx:100 | typing replaces the expression; nothing else changes |
| CalculatorPanel.Calculator.SetLanguage | app/components/Calculator.tsx:111 | the picker sets the language; nothing else changes |
| CalculatorPanel.Calculator.OnVoiceResult | app/components/Calculator.tsx:48-63 | a transcript sets the expression to its normalized, whitespace-free form |
| CalculatorPanel.Calculator.HandleCalculate | app/components/Calculator.tsx:18-33 | no request exactly when the expression is all whitespace; otherwise one request with the expression and language, and the shown response |
| CalculatorPanel.Calculator.PressKey | app/components/Calculator.tsx:147-152 | "=" calculates and leaves the expression; any other key appends its label and sends nothing |
| CalculatorPanel.Calculator.OnKeyPress | app/components/Calculator.tsx:79-81 | Enter calculates; any other key changes nothing |
| SurfacePlot.SanitizeRulesShape | app/components/Graph3D.tsx:27-34 | the caret rule comes first, and each later rule prefixes its function name with `Math.` |
| SurfacePlot.Sanitize | app/components/Graph3D.tsx:27-34 | the seven replaces of the sanitizer in source order (definition; SanitizeRemovesCaret and SanitizePlainText state its properties) |
| SurfacePlot.SanitizeRemovesCaret | app/components/Graph3D.tsx:27-34 | no caret is left after sanitizing |
| SurfacePlot.CaretRuleExpands | app/components/Graph3D.tsx:28 | the caret rule turns each caret into `**` and keeps every other character |
| SurfacePlot.SanitizePlainText | app/components/Graph3D.tsx:27-34 | text without a caret or any of the six names is left unchanged |
| SurfacePlot.CaretStep | app/components/Graph3D.tsx:28 | `sqrt(A^B)` becomes `sqrt(A**B)` |
| SurfacePlot.SqrtStep | app/components/Graph3D.tsx:29 | `sqrt(M)` becomes `Math.sqrt(M)` |
| SurfacePlot.SqrtCallUntouched | app/components/Graph3D.tsx:30-34 | the sin, cos, tan, log and exp rules leave `Math.sqrt(M)` unchanged |
| SurfacePlot.SanitizeChain | app/components/Graph3D.tsx:27-34 | for a formula where the sin, cos, tan, log and exp rules change nothing once the caret and sqrt rules have run, the sanitized text is the caret rewrite followed by the sqrt rewrite |
| SurfacePlot.SanitizeSqrtOfPower | app/components/Graph3D.tsx:27-34 | `sqrt(A^B)`, for operands without rule letters, becomes `Math.sqrt(A**B)` |
| SurfacePlot.SanitizeExample | app/components/Graph3D.tsx:27-34 | `sqrt(x^2)` becomes `Math.sqrt(x**2)` |
| SurfacePlot.EvaluateAt | app/components/Graph3D.tsx:25-40 | the value at a point is the evaluator's result on the sanitized text, and 0 when evaluation throws |
| SurfacePlot.AxisValue | app/components/Graph3D.tsx:49-58 | sample i of an axis is `min + i * (max - min) / 40` (definition; AxisEnds and AxisDirection state its properties) |
| SurfacePlot.AxisEnds | app/components/Graph3D.tsx:48-59 | the first sample of an axis is its minimum and the 41st is its maximum |
| SurfacePlot.AxisDirection | app/components/Graph3D.tsx:48-59 | samples increase, decrease or stay constant along the axis as max is above, below or equal to min |
| SurfacePlot.SampleAxes | app/components/Graph3D.tsx:52-59 | both axes get 41 samples, and sample i is `min + i * (max - min) / 40` |
| SurfacePlot.SampleRow | app/components/Graph3D.tsx:62-68 | a row holds 41 values, and entry j is the value at `(x[j], y)` |
| SurfacePlot.SampleSurface | app/components/Graph3D.tsx:48-70 | the grid is 41 × 41, and `z[i][j]` is the value at `(x[j], y[i])` |
| SurfacePlot.SurfacePlotter.constructor | app/components/Graph3D.tsx:8-11 | the initial expression is `sin(sqrt(x^2 + y^2))`, both ranges are -5..5, and nothing is loading |
| SurfacePlot.SurfacePlotter.HandlePlot | app/components/Graph3D.tsx:42-99 | an unmounted plot does nothing; otherwise the sampled surface of the current expression and ranges is produced and loading ends cleared |
| StatisticsPanel.TrimAllAt | app/components/StatisticsCalculator.tsx:21 | field i of the trimmed list is field i trimmed |
| StatisticsPanel.FieldNumber | app/components/StatisticsCalculator.tsx:22-24 | a trimmed field yields one number exactly when it is non-empty and does not read as NaN, and that number is its reading |
| StatisticsPanel.ParseFields | app/components/StatisticsCalculator.tsx:22-24 | the parsed list is never longer than the field list |
| StatisticsPanel.ParseList | app/components/StatisticsCalculator.tsx:19-24 | split, trim, parse: at most one number per field (ParseKeepsAccepted says which) |
| StatisticsPanel.ParseFieldsAppend | app/components/StatisticsCalculator.tsx:19-24 | parsing works field by field and keeps field order |
| StatisticsPanel.KeptCount | app/components/StatisticsCalculator.tsx:22-24 | as many field indices are kept as numbers are parsed |
| StatisticsPanel.KeptReadingAt | app/components/StatisticsCalculator.tsx:22-24 | the i-th kept field is accepted, and its reading is the i-th parsed number |
| StatisticsPanel.KeptReadings | app/components/StatisticsCalculator.tsx:22-24 | every kept field is accepted and read into the same position of the list |
| StatisticsPanel.KeptIncreasing | app/components/StatisticsCalculator.tsx:22-24 | kept field indices strictly increase |
| StatisticsPanel.KeptComplete | app/components/StatisticsCalculator.tsx:22-24 | every accepted field is kept |
| StatisticsPanel.ParseKeepsAccepted | app/components/StatisticsCalculator.tsx:19-24 | the parsed list is, in field order, the readings of exactly the fields that are non-blank once trimmed and not NaN |
| StatisticsPanel.FileParseMatchesComma | app/components/StatisticsCalculator.tsx:81-86 | on text without newlines, the upload parser and the comma parser agree |
| StatisticsPanel.Shown | app/components/StatisticsCalculator.tsx:88 | each number is printed in place |
| StatisticsPanel.JoinNumbers | app/components/StatisticsCalculator.tsx:88 | `numbers.join(', ')` over the printed numbers (definition; ReparseJoined states its round trip) |
| StatisticsPanel.PaddedNumber | app/components/StatisticsCalculator.tsx:88 | a number whose printed form reads back is, after padding, one field that trims back and reads back as that number |
| StatisticsPanel.ReparsePadded | app/components/StatisticsCalculator.tsx:88 | a non-empty list whose numbers each print and read back, joined with ", " after leading whitespace, parses back to itself |
| StatisticsPanel.ReparseJoined | app/components/StatisticsCalculator.tsx:19-24 | a list joined with ", " parses back to itself on commas, when each of its numbers prints and reads back |
| StatisticsPanel.UploadThenCalculate | app/components/StatisticsCalculator.tsx:81-88 | after an upload, the calculate button parses exactly the numbers the file parser found, when each of those numbers prints and reads back |
| StatisticsPanel.ReadsBackTail | app/components/StatisticsCalculator.tsx:88 | when every number of a list prints and reads back, so do its first number and its remaining numbers |
| StatisticsPanel.RandomValues | app/components/StatisticsCalculator.tsx:69 | each random value is a whole number from 0 to 99, one per draw |
| StatisticsPanel.StatisticsCalculator.constructor | app/components/StatisticsCalculator.tsx:9-11 | the input is empty, there is no result, and nothing is loading |
| StatisticsPanel.StatisticsCalculator.OnInput | app/components/StatisticsCalculator.tsx:111 | typing replaces the input; nothing else changes |
| StatisticsPanel.StatisticsCalculator.HandleCalculate | app/components/StatisticsCalculator.tsx:13-56 | blank input: nothing happens; no parsed numbers: no request and loading cleared; otherwise the parsed list is sent and the reply or the failure record is shown, with loading cleared |
| StatisticsPanel.StatisticsCalculator.LoadExample | app/components/StatisticsCalculator.tsx:58-60 | the input becomes the fifteen example numbers |
| StatisticsPanel.StatisticsCalculator.ClearData | app/components/StatisticsCalculator.tsx:62-65 | the input is emptied and the result cleared |
| StatisticsPanel.StatisticsCalculator.GenerateRandomData | app/components/StatisticsCalculator.tsx:67-71 | the input becomes the twenty floored draws joined with ", " |
| StatisticsPanel.StatisticsCalculator.HandleFileUpload | app/components/StatisticsCalculator.tsx:73-91 | no file: nothing changes; otherwise the input becomes the file's numbers, split on commas and newlines, joined with ", " |
| MatrixEditor.Zeros | app/components/MatrixCalculator.tsx:16-17 | an r × c grid of zeros |
| MatrixEditor.Grid | app/components/MatrixCalculator.tsx:44 | the sent rows are the cells of the matrix, in place |
| MatrixEditor.CellValue | app/components/MatrixCalculator.tsx:30 | a NaN reading stores 0; any other reading is stored as read |
| MatrixEditor.SizeEntryAsWritten | app/components/MatrixCalculator.tsx:113 | a NaN or zero entry falls back to 2; any other integer, negatives included, is used |
| MatrixEditor.NegativeSizeGetsThrough | app/components/MatrixCalculator.tsx:113 | an entry of -1 reaches the resize as -1 |
| MatrixEditor.EntrySize | app/components/MatrixCalculator.tsx:113 | the corrected entry is a positive size: the entry when it is at least 1, else 2 |
| MatrixEditor.EntrySizeAgrees | app/components/MatrixCalculator.tsx:124 | the corrected and the written entry differ exactly on negative input |
| MatrixEditor.UsesOperandB | app/components/MatrixCalculator.tsx:45 | the operations add, subtract and multiply take matrix B (definition; BuildRequest states its use) |
| MatrixEditor.BuildRequest | app/components/MatrixCalculator.tsx:43-47 | matrix A and the operation are always sent; matrix B is sent exactly for add, subtract and multiply |
| MatrixEditor.MatrixCalculator.constructor | app/components/MatrixCalculator.tsx:7-13 | the size is 2 × 2, both operands are zero, the operation is add, there is no result, and nothing is loading |
| MatrixEditor.MatrixCalculator.InitializeMatrices | app/components/MatrixCalculator.tsx:15-20 | both operands are replaced by new, distinct zero grids of the given size |
| MatrixEditor.MatrixCalculator.HandleSizeChange | app/components/MatrixCalculator.tsx:22-26 | the size is set, and both operands become zero grids of that size |
| MatrixEditor.MatrixCalculator.OnRowsInput | app/components/MatrixCalculator.tsx:113 | the typed row count, corrected, resizes and zeroes both operands |
| MatrixEditor.MatrixCalculator.OnColsInput | app/components/MatrixCalculator.tsx:124 | the typed column count, corrected, resizes and zeroes both operands |
| MatrixEditor.MatrixCalculator.UpdateMatrixA | app/components/MatrixCalculator.tsx:28-32 | exactly one cell of A changes, to the typed value or 0; B is unchanged |
| MatrixEditor.MatrixCalculator.UpdateMatrixB | app/components/MatrixCalculator.tsx:34-38 | exactly one cell of B changes, to the typed value or 0; A is unchanged |
| MatrixEditor.MatrixCalculator.SetOperation | app/components/MatrixCalculator.tsx:134 | the operation is set; nothing else changes |
| MatrixEditor.MatrixCalculator.HandleOperation | app/components/MatrixCalculator.tsx:40-60 | the request is built from the current grids; the reply or "Failed to perform matrix operation" is shown, and loading ends cleared |
| Registration.Validate | app/components/Register.tsx:26-34 | mismatched passwords are reported first; matching passwords shorter than 6 characters are reported next; otherwise the form passes |
| Registration.FailureMessage | app/components/Register.tsx:45 | the server's non-empty message is shown, else "Registration failed. Please try again." |
| Registration.RegisterForm.constructor | app/components/Register.tsx:12-18 | every field and message is empty, and nothing is loading |
| Registration.RegisterForm.HandleSubmit | app/components/Register.tsx:21-49 | a failed check shows its message with no call; otherwise register is called once; success schedules the switch to sign-in, failure shows the server or fallback message, and loading ends cleared |

## Left out

- Rendering, styling, icons, `alert` and `console.error` are not modelled. Recharts, Plotly and the plot container's contents are not modelled either.
- Speech recognition start and stop and the `isListening` flag are not modelled: they are browser APIs. Only the result handler is modelled. The graph toggle `showGraph` is not modelled either.
- The Plotly script injection, `Plotly.newPlot` and the catch around plotting are not modelled: they need the browser and a third-party library.
- The service client, the authentication context and the network are not part of this model. Each call is a `Reply` parameter: a body, or a thrown error.
- The tokenizer, parser and evaluator behind `eval` are not part of this model, nor is the server that computes results. `eval` is a parameter returning `Option<real>`: `None` means it threw.
- `parseFloat`, `parseInt`, `Math.random` and JavaScript number printing are parameters. Their exact grammars are not modelled.
- StatisticsPanel.UploadThenCalculate: holds only when each number found prints and reads back, through `ReadsBack` over that list. A number whose printed form `parseFloat` reads as a different number is not covered. StatisticsPanel.ReparseJoined carries the same condition.
- Floating point is not modelled: numbers are reals, so NaN, Infinity, rounding and `-0` are outside the model.
  - In the graph, a NaN range bound from `parseFloat` is not modelled: the range fields are reals.
  - In the graph, an `eval` result that is not a number is not modelled.
- Text.ToLower: lower-cases only the ASCII letters A–Z. The full Unicode case mapping of `toLowerCase` is not modelled.
- Strings are sequences of code points, not UTF-16 code units. `password.length` is therefore the code-point count.
- The input setters of the registration form, and of the range fields and expression field of the surface plot, are plain assignments. They are not modelled separately.
- Registration.RegisterForm.HandleSubmit: the two-second delay before switching to sign-in is a returned flag. The timer is not modelled.
- The busy flags are modelled only by their value once a handler finishes. The intermediate `true` during an await is not observable in the model.
- NormalizeExample and SanitizeExample state their example inputs as concatenations of literals. The general lemmas they use, NormalizeSquarePlus and SanitizeSqrtOfPower, carry the result.
- MatrixEditor.MatrixCalculator.OnRowsInput: uses the corrected size entry, so the editor state after a negative size is not modelled. The as-written entry is modelled separately; see Findings.
- MatrixEditor.MatrixCalculator.OnColsInput: uses the corrected size entry as well. A negative column count, where the source throws a RangeError, gives size 2 in the model; see Findings.
- MatrixEditor.MatrixCalculator.UpdateMatrixA: each operand is one two-dimensional array. The source shares row arrays between the old and the new outer array, which is an alias the model cannot express; the observable effect, an in-place write of one cell, is kept.
- The rendering of matrix B only for two-operand operations is not modelled. The request side, BuildRequest, is modelled.

## Findings

| source | as written | input that shows it | evidently intended | confidence | as-written member | corrected member |
|---|---|---|---|---|---|---|
| app/components/MatrixCalculator.tsx:113 | `parseInt(value) \|\| 2` falls back to 2 only for NaN and 0, so a negative entry is passed to `Array(newRows)` | typing `-1` in the rows field gives size -1, and `Array(-1)` throws a RangeError | any entry below 1 falls back to 2, matching the field's `min="1"` | not executed | MatrixEditor.NegativeSizeGetsThrough | MatrixEditor.EntrySize |
| app/components/MatrixCalculator.tsx:124 | the same `parseInt(value) \|\| 2` in the columns field passes a negative entry to `Array(newCols)` | typing `-1` in the columns field gives size -1, and `Array(-1)` throws a RangeError | any entry below 1 falls back to 2, matching the field's `min="1"` | not executed | MatrixEditor.SizeEntryAsWritten | MatrixEditor.EntrySizeAgrees |

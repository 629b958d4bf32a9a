# Formify core in Dafny

Formify is an editor extension. It turns a short description of form fields, one line per field of the shape
`Label (type, required|optional)`, into either a plain HTML `<form>` or the source text of a React
component with state, validation and Tailwind-styled controls. This project models its core, the
three pure string functions of `src/extension.ts`, and proves properties of them:

- `parseFormDescription`: module `Parser`, with the string helpers in `Text`.
- `generateHTMLForm`: module `Html`.
- `generateReactForm`: module `React`.
- `FormField`: module `Fields`.
- The side panel's serialiser, which writes each row as a description line and joins the lines,
  is modelled in module `Panel` for the round trip.

Modules:

- `fields.dfy`: the `FormField` record (`labelText`, `kind`, `required`; `label` and `type` are
  reserved words in Dafny), `Option`, `Result`, and the ` required` attribute that both generators share.
- `text.dfy`: the JavaScript string operations the core uses:
  - `trim`, `split("\n")` and `join`;
  - `toLowerCase`, and `charAt(0).toUpperCase() + slice(1)`;
  - `split(/(?=[A-Z])/)`;
  - `filter` on strings;
  - the laws connecting these.
- `parser.dfy`: the line pattern `/^(.*?)\s*\((.*?),\s*(required|optional)\)$/`, written out by hand.
  - `Decomposes` states declaratively when a split of the line fits the pattern.
  - `Leftmost` picks the split a backtracking engine reports: the shortest first group, after which
    the rest is fixed.
  - `MatchLine` and `Search` compute that split.
  - `ParseLine` and `ParseFormDescription` follow the source, with the thrown error as an `Err` result.
- `html.dfy`: the HTML form.
- `react.dfy`: the component, as the list of its lines. The three control templates, the rule
  statements and the surrounding boilerplate are transcribed verbatim, as the template literals emit them.
- `panel.dfy`: the panel's description lines and the round trip through the parser.

Where the code and a plain reading of the format disagree, the model follows the code:

- The whitespace of `trim` and `\s` is the full ECMAScript set (white space and line terminators, including `\r`).
- `.` matches no line terminator, but `\s` matches every one. So a line holding a line terminator
  fails, unless the terminator lies in the white space just before `(` or between the final comma
  and the keyword.
  - `"A\r(text, required)"` matches (`CarriageReturnBeforeParenAccepted`, for any label with no `(` or
    line terminator and any type with no line terminator).
  - `"A\rB (text, required)"` and `"A (te\rxt, required)"` fail: the `\r` is inside the label or the type.
  - A `\r` after the final `)`, as left by CRLF line ends, makes the line fail (`TrailingCarriageReturnRejected`).
- When neither label nor type holds a line terminator, a label holding `(` is cut at its first `(`.
  The rest of the label becomes part of the type (`LabelWithParenIsCut`); it is not kept as label text.
  A line terminator in the label changes this, because the type group does not cross it.
- An empty label is accepted (`EmptyLabelAccepted`).
- Two labels equal up to letter case get the same key, so the emitted objects and interfaces repeat a key.
- A label with a space gives a key with a space, and that key is emitted verbatim.

## Model

| member | source | states |
|---|---|---|
| Fields.RequiredAttr | src/extension.ts:29 | the attribute is non-empty exactly when the field is required |
| Text.IsLineTerminator | src/extension.ts:13 | the ECMAScript line terminators `\n`, `\r`, U+2028 and U+2029: the characters `.` does not match |
| Text.IsSpace | src/extension.ts:11-13 | the ECMAScript white space and line terminators: what `\s` matches and what `trim` removes |
| Text.TrimStart | src/extension.ts:11 | the result is a suffix of the input; everything removed is white space, and the result is empty or starts with non-space |
| Text.TrimEnd | src/extension.ts:11 | the result is a prefix of the input; everything removed is white space, and the result is empty or ends with non-space |
| Text.TrimStartUnique | src/extension.ts:11 | these three properties determine the start-trimmed string |
| Text.TrimEndUnique | src/extension.ts:11 | these three properties determine the end-trimmed string |
| Text.Trim | src/extension.ts:11 | the trimmed string neither starts nor ends with white space |
| Text.TrimIdempotent | src/extension.ts:19-20 | trimming twice is trimming once |
| Text.TrimOfTrimStart | src/extension.ts:11 | trimming the start first does not change the trim |
| Text.Split | src/extension.ts:11 | `split` returns at least one piece |
| Text.SplitPiecesFree | src/extension.ts:11 | no piece of a split holds the separator |
| Text.Join | src/extension.ts:32 | `Array.prototype.join` (also lines 40, 44, 83, 153, 158): the pieces with the separator between neighbours, `""` for none; its laws are `JoinOfSplit`, `SplitJoin` and `JoinOfJoins` |
| Text.JoinOfSplit | src/extension.ts:11 | joining the pieces of a split with the separator gives the input back |
| Text.SplitJoin | src/extension.ts:11 | splitting undoes joining when no piece holds the separator |
| Text.NonEmpty | src/extension.ts:82 | `.filter((rule) => rule)` on strings: the pieces that are not empty, in order; no piece of the result is empty |
| Text.JoinOfJoins | src/extension.ts:81-83 | joining each group, dropping empty results and joining again is one join of all pieces, when no piece is empty |
| Text.Lower | src/extension.ts:39 | `toLowerCase` keeps the length and maps each character |
| Text.LowerProperties | src/extension.ts:39 | a lowered string has no capital, lowers to itself, and differs from its input only in case |
| Text.Capitalize | src/extension.ts:88 | only the first character changes, to its upper case |
| Text.CapitalizeProperties | src/extension.ts:88 | the result starts with no lower-case letter, capitalizes to itself, differs from the input only in case, and is the input itself when that starts with no lower-case letter |
| Text.SplitAtCapitals | src/extension.ts:210 | `split(/(?=[A-Z])/)`: the string cut before every capital letter but a leading one, `[""]` for `""`; its properties are stated by `SplitAtCapitalsJoin` |
| Text.SplitAtCapitalsJoin | src/extension.ts:210 | the pieces joined with spaces put a space before every capital except a leading one; joined with nothing they give the label back; every piece after the first starts with a capital |
| Parser.MatchLine | src/extension.ts:13 | computes the match of the line pattern: the keyword at the end, the comma before it, then the search for the shortest first group; a reported match has its comma at `c` with `i <= p < c` inside the line |
| Parser.MatchLineReportsLeftmost | src/extension.ts:13 | when the pattern matches, the reported split is the one with the shortest first group; when nothing is reported, no split fits the pattern |
| Parser.LeftmostUnique | src/extension.ts:13 | the split the engine reports is unique |
| Parser.DecompositionUnique | src/extension.ts:13 | once the first group's length is fixed, the parenthesis, the comma and the keyword are fixed |
| Parser.SearchFindsLeftmost | src/extension.ts:13 | a split the search reports, trying first groups from length `i` upwards, fits the pattern, and no shorter first group from `i` on fits |
| Parser.SearchMissesNothing | src/extension.ts:13 | when the search from length `i` reports nothing, no split with a first group of at least `i` characters fits |
| Parser.ParseLine | src/extension.ts:13-22 | one line: the error `Invalid line format: ` and the line when nothing matches, otherwise the trimmed first group, the trimmed second group and whether the keyword is `required`; its properties are stated by `ParseLineMatchesPattern` |
| Parser.ParseLineMatchesPattern | src/extension.ts:12-22 | a line parses exactly when the pattern matches it; the field is then the trimmed first group, the trimmed second group, and `required` exactly when the keyword is `required`; otherwise the error is `Invalid line format: ` and the line |
| Parser.MapLines | src/extension.ts:12-23 | all or nothing: success exactly when every line parses, giving one field per line in line order; otherwise the error of the first failing line |
| Parser.MapLinesAllOk | src/extension.ts:12-23 | when every line yields its field, the result is that list of fields |
| Parser.Lines | src/extension.ts:11 | the lines of the trimmed text: at least one, none holds `\n`, and joined with `\n` they give the trimmed text |
| Parser.ParseFormDescription | src/extension.ts:10-24 | `parseFormDescription`: `ParseLine` mapped over the lines of the trimmed text, all or nothing; its properties are stated by `ParseFormDescriptionSpec` |
| Parser.ParseFormDescriptionSpec | src/extension.ts:10-24 | the description parses exactly when every line matches; the fields are the lines' readings in order; otherwise the error names the first failing line |
| Parser.ParseBlankText | src/extension.ts:11-16 | empty or all-white-space text fails, as the single empty line |
| Parser.ParseLineNeedsKeyword | src/extension.ts:13-16 | a line not ending in `required)` or `optional)` fails with its own text in the message |
| Parser.ParseLineNeedsComma | src/extension.ts:13-16 | a line whose last non-space character before the keyword is not a comma fails |
| Parser.NoParenNoMatch | src/extension.ts:13 | without a `(` before the final comma, nothing matches |
| Parser.FirstParenMatches | src/extension.ts:13 | on a line without line terminators, a `(` before the comma gives a match at the first `(` |
| Parser.ParseLineWithoutLineTerminators | src/extension.ts:13-22 | on a line without line terminators that ends in comma, white space and the keyword: it parses exactly when a `(` precedes the comma; the label is the trimmed text before the first `(`, and the type is the trimmed text between it and the comma |
| Parser.ReportedFromDecomposition | src/extension.ts:13-22 | any split whose parenthesis is the first `(` yields the field the source returns |
| Parser.ParseLineOfShape | src/extension.ts:13-22 | a line `label`, white space, `(type, keyword)` with no `(` or line terminator in the label and no line terminator in the type reads as the trimmed label, the trimmed type and the keyword |
| Parser.ParseLineOfTightShape | src/extension.ts:13-22 | the same, with no white space before `(` |
| Parser.EmptyLabelAccepted | src/extension.ts:13-19 | a line with nothing but white space (line terminators included) before `(`, and no line terminator in the type, gives a field with an empty label |
| Parser.WrongCaseKeywordRejected | src/extension.ts:13-16 | every line ending in `Required)` or `Optional)` fails, with the line in the message |
| Parser.TrailingCarriageReturnRejected | src/extension.ts:11-16 | every line ending in `\r` fails, with the line in the message |
| Parser.CarriageReturnBeforeParenAccepted | src/extension.ts:13-19 | with no `(` or line terminator in the label and no line terminator in the type, a `\r` between label and `(` is consumed by `\s*` and the line parses to the trimmed label and type |
| Panel.DescribeField | src/webview.ts:500-503 | a row's line: the label, ` (`, the type, `, `, the selector's keyword and `)`; its round trip is stated by `ParseDescribedField` |
| Panel.Describe | src/webview.ts:500-516 | the message the generate button sends: the error `Please add at least one field to generate the form.` for no rows, otherwise the rows' lines joined with `\n`; its round trip is stated by `ParseDescription` |
| Panel.KeywordFacts | src/webview.ts:441 | the selector's value is one of the two keywords, and it is `required` exactly for a required row |
| Panel.ParseDescribedField | src/webview.ts:502 | a row's line, with no `(` or line terminator in the label and no line terminator in the type, parses back to the row with label and type trimmed |
| Panel.DescriptionLines | src/extension.ts:11 | for at least one row, none with `(` or a line terminator in its label or a line terminator in its type: the lines the parser sees in the panel's text are the rows' lines, the first one with its leading white space trimmed |
| Panel.DescriptionTrim | src/extension.ts:11 | for the same rows: trimming the panel's text removes only the white space before the first label |
| Panel.ParseDescription | src/webview.ts:500-516 | the panel sends text exactly when there is a row; for rows with no `(` or line terminator in a label and no line terminator in a type, that text parses to the rows, trimmed, in order |
| Panel.ParseDescriptionExact | src/webview.ts:500-516 | at least one row, each with no `(` or line terminator in its label, no line terminator in its type, and label and type already trimmed: the rows come back unchanged |
| Panel.LabelWithParenIsCut | src/extension.ts:13-19 | when neither label nor type holds a line terminator, a label holding `(` is cut at its first `(`, and the rest of it joins the type |
| Html.FieldLine | src/extension.ts:29-30 | one field's markup line without its `\n`: the label, the `<input>` of the field's type and the required attribute; stated about by `FieldLineMarksRequired` |
| Html.GenerateHtmlForm | src/extension.ts:26-35 | `generateHTMLForm`: `<form>`, every field's line ended by `\n`, the submit button and `</form>`; its properties are stated by `EmptyForm`, `FieldInPlace` and `FormLines` |
| Html.FieldLineMarksRequired | src/extension.ts:29-30 | a field's line ends in ` required /></label>` exactly when the field is required, whatever its label and type hold |
| Html.EmptyForm | src/extension.ts:34 | with no fields the form holds only the submit button |
| Html.FieldInPlace | src/extension.ts:27-34 | the markup of field `k` sits between the markup of the fields before it and of those after it |
| Html.FormLines | src/extension.ts:26-35 | when no label or type holds `\n`, the lines of the form are `<form>`, one line per field in order, the button and `</form>` |
| React.Key | src/extension.ts:39 | the key has the label's length, holds no capital letter, lowers to itself, and differs from the label only in case |
| React.Entries | src/extension.ts:38-44 | the members `key: ""` of the state and error objects, joined with `, `; stated about by `EntriesPerField` |
| React.InterfaceBody | src/extension.ts:158 | the declarations `key: string;` of either interface, joined with a line end and two spaces; stated about by `InterfacePerField` |
| React.EntriesPerField | src/extension.ts:38-44 | the state and error objects hold one entry `key: ""` per field, in field order, and nothing for no fields |
| React.InterfacePerField | src/extension.ts:158 | each interface body is one line `key: string;` per field, in field order |
| React.FormatRule | src/extension.ts:57-78 | the `switch` adds a rule exactly for the kinds `email`, `url`, `tel` and `password`, and that rule is a format rule, never the presence check |
| React.RulesFor | src/extension.ts:49-78 | a field gets the presence rule exactly when it is required, and that rule first; for `email`, `url`, `tel` and `password` the last rule is that kind's format rule (the length check for `password`); no other kind gets a format rule |
| React.RuleText | src/extension.ts:53-76 | no rule statement is empty, so the filter drops exactly the fields without rules |
| React.FieldRulesEmpty | src/extension.ts:51-80 | a field's rule text is empty exactly when the field is optional and its kind has no format check |
| React.ValidationBlock | src/extension.ts:46-83 | every field's rule statements joined, the fields without any dropped, all joined with the same separator; its properties are stated by `ValidationBlockRules` and `ValidationBlockEmpty` |
| React.ValidationBlockRules | src/extension.ts:46-83 | the validation block is every field's rules in field order, presence first within a field, all with one separator; dropping the empty ones leaves no trace |
| React.ValidationBlockEmpty | src/extension.ts:46-83 | the block is empty exactly when no field has a rule |
| React.DisplayLabel | src/extension.ts:88 | the shown label is the label with its first character upper-cased, followed by ` *` exactly when the field is required |
| React.TextareaLines | src/extension.ts:92-109 | the textarea block has 18 lines; the label line, the `<textarea` line, `name`, the `onChange` line with the required attribute, and `rows={4}` are at their places |
| React.CheckboxLines | src/extension.ts:113-131 | the checkbox block has 17 lines with `type="checkbox"`, `name`, `checked={formData.key === "true"}`, the required attribute and the label span at their places |
| React.InputLines | src/extension.ts:134-151 | the input block has 18 lines with `<input`, `type="kind"`, `name`, the label line and the required attribute at their places |
| React.TextareaControl | src/extension.ts:91-110 | kind `textarea` produces a four-row `<textarea>` named by the key, shown with the display label, marked required exactly when the field is |
| React.CheckboxControl | src/extension.ts:112-132 | kind `checkbox` produces a checkbox named by the key, checked when the value is `"true"`, shown with the display label |
| React.InputControl | src/extension.ts:134-151 | every other kind produces an `<input>` whose type is the kind verbatim, named by the key, shown with the display label |
| React.ControlLines | src/extension.ts:85-153 | the lines of one field's block: the textarea block for kind `textarea`, the checkbox block for `checkbox`, an input block otherwise; stated about by `TextareaControl`, `CheckboxControl` and `InputControl` |
| React.FormFieldsMarkup | src/extension.ts:85-153 | every field's block, in field order, joined with `\n`; stated about by `FormFieldsLines` |
| React.FormFieldsLines | src/extension.ts:85-153 | the fields' markup is, line by line, each field's block in field order |
| React.Heading | src/extension.ts:210 | the heading is `Form` when there is no field or the first label is empty; otherwise it is the first label with a space before every capital letter after the first character |
| React.GenerateReactForm | src/extension.ts:155-234 | `generateReactForm`: the head lines, the fields' markup and the tail lines joined with `\n`; its structure is stated by `ComponentLines` |
| React.ComponentLines | src/extension.ts:155-234 | the component is, line by line, the fixed head, every line of every field's block in field order, and the fixed tail; with no fields, one empty line stands between them |

## Left out

- The editor glue of `src/extension.ts` is not modelled: lines 237-345, which cover `FormifyViewProvider`, `activate`, the `formify.toHTML` and `formify.toReact` commands, opening documents and showing error messages. It is editor I/O and asynchronous host calls.
- The rest of `src/webview.ts` is left out: the panel's HTML and CSS, the template gallery, DOM event handlers, preview and `postMessage`. It is presentation code inside a template string. Only the line format (500-503), the empty-panel error (505-511) and the join (516) are modelled.
- What the generated component does at run time is out of scope: React state updates, the delayed submit, `alert`, and which inputs the emitted regular expressions accept. The rule statements are modelled as the text they are.
- Text.Lower: maps only the ASCII letters, because the full Unicode case tables are out of scope. The source's `toLowerCase` also maps other letters.
- Text.Capitalize: upper-cases only the ASCII letters, for the same reason. The source's `toUpperCase` can also change the length, as `ß` becomes `SS`.
- The source builds `stateFields` and `errorFields` with identical code (lines 38-44). The model defines `React.Entries` once and uses it for both.
- React.EntriesPerField: states one entry per field only for labels without a comma. With a comma in a label, splitting at commas no longer recovers the entries. `Entries` itself covers every label.
- React.InterfacePerField: states one line per field only for labels without `\n`, for the same reason.
- React.ComponentLines: states the component's structure as a join of lines, not as the result of splitting it at `\n`. The fixed template lines are not proved free of `\n`.
- Html.FormLines: states the line structure only when labels and types hold no `\n`. `FieldInPlace` covers every field.
- Panel.ParseDescribedField: states the round trip only for labels without `(` and without line terminators, and types without line terminators. `LabelWithParenIsCut` states what happens to a label with `(` when neither label nor type holds a line terminator.
- Panel.LabelWithParenIsCut: says nothing about labels or types that hold a line terminator. There the type group of the pattern stops at the terminator, so the label may be kept whole or the line may fail.
- Panel.DescriptionLines, Panel.DescriptionTrim, Panel.ParseDescription and Panel.ParseDescriptionExact: state the panel's text only for rows of that kind, for the same reason.

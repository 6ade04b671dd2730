# Chef-AI chat script: a verified model of its decision layer

Chef-AI is a chat page. The user types a list of ingredients. The page asks a
remote AI service for three recipe ideas and shows them as cards. Clicking a
card, or typing a recipe name once cards are shown, asks for detailed
instructions instead, which are shown as light HTML.

This project models the parts of `script.js` that decide what is sent and
what is shown:

- the two prompt templates (`Prompts`);
- the retry controller around the request (`ChiefAIClient`). The network is
  given as a function from attempt number to the outcome of that attempt;
- the selection of the error message shown to the user (`ErrorMessages`);
- the line-by-line parser that turns a reply into suggestion records
  (`SuggestionParser`);
- the chain of regular-expression replacements that formats a detail reply
  (`Formatter`);
- the choice between cards, raw text and formatted text, and the decision
  part of sending a message (`ResponseInterpreter`).

`Text` models the JavaScript string operations these rely on: `trim`,
`substring`, `startsWith`, `includes` and `split`. It also defines the first
occurrence of a pattern, on which `includes` and `split` rest, and joining,
the inverse of `split`; the script calls neither `indexOf` nor `join`. `Wrappers` holds
`Option` and `Result`.

The parser's loop over lines is the method `SuggestionParser.ParseSuggestions`.
It is proved equal to a declarative description. That description cuts the
lines into blocks, one `## ` heading line plus the lines up to the next one,
and maps each block to one record. The retry recursion is the bounded loop
`ChiefAIClient.CallChiefAI`. It is proved equal to the recursive function
`Call`, which follows the source's recursion. Properties of the call are then
proved about `Call`.

Two details of the code are easy to misread:

- `split('Ingredients:')[1]` is the text between the first and the second
  occurrence of the label, not all the text after the first one.
- The prompts keep the line breaks and the eight spaces of indentation that
  their template literals contain, and "Main ingredients used" has no full
  stop after it.

## Model

| member | source | states |
|---|---|---|
| SuggestionParser.Suggestions | script.js:149-178 | the declarative description of the parser: one record per block of the reply's lines; no contract of its own, its properties are the lemmas below |
| SuggestionParser.ParseSuggestions | script.js:149-178 | the record-by-record loop over `text.split('\n')` returns exactly `Suggestions(text)`: one record per block, in order |
| SuggestionParser.SuggestionCount | script.js:155-163 | the number of records is the number of lines that start with `## ` |
| SuggestionParser.SuggestionsEmptyIff | script.js:155-172 | no record is returned exactly when no line starts with `## ` |
| SuggestionParser.LeadingLinesSkipped | script.js:163 | lines before the first heading line have no effect |
| SuggestionParser.BlocksFlatten | script.js:155-172 | each block is a heading line plus lines without a heading, and the blocks are the lines after the leading ones, in order |
| SuggestionParser.FlattenBlocks | script.js:155-172 | cutting well-formed blocks back into lines and re-parsing gives the same blocks |
| SuggestionParser.SuggestionOfBlock | script.js:156-169 | the k-th record is built from the k-th block, whose heading starts with `## ` and whose body has no such line |
| SuggestionParser.SubheadingIsNotHeading | script.js:156 | a `###` line does not start a record |
| SuggestionParser.IsHeadingStartsWith | script.js:156 | the heading test is `startsWith('## ')` |
| SuggestionParser.DescriptionIsFirst | script.js:166-167 | the description is the first line of the block that is not blank and has no `Ingredients:`, trimmed; later lines do not overwrite it |
| SuggestionParser.DescriptionEmptyIff | script.js:160-167 | the description stays empty exactly when the block has no such line |
| SuggestionParser.IngredientsIsLast | script.js:164-165 | the ingredients come from the last `Ingredients:` line of the block |
| SuggestionParser.IngredientsEmptyWithoutLabel | script.js:161-165 | the ingredients stay empty when no line of the block has the label |
| SuggestionParser.IngredientsFieldOnce | script.js:165 | with one label on the line, the field is the trimmed text after it |
| SuggestionParser.IngredientsFieldTwice | script.js:165 | with a second label, the field stops at the second one |
| SuggestionParser.LabelledLine | script.js:164-165 | a line `d + "Ingredients:" + r`, with no other `I` in it, is an ingredients line with field `trim(r)` |
| SuggestionParser.HeadingAndLine | script.js:149-178 | a heading line followed by one more line gives exactly one record |
| SuggestionParser.TwoCards | script.js:149-178 | a reply of two cards, each a `## ` name line, a description line and an `Ingredients:` line, gives exactly the two records with the trimmed name, description and ingredients, when no part holds a newline, the description and ingredients hold no `I`, and the description is not blank and does not start with `#` |
| SuggestionParser.RecordOfCard | script.js:156-169 | a block of a heading, a description line and an `Ingredients:` line gives the record of the heading's name, the trimmed description and that line's field |
| SuggestionParser.LinesOfJoin | script.js:152 | lines without a newline, joined by `\n`, split back into the same lines |
| Text.TrimSpec | script.js:159-167 | `trim` gives a slice `s[a..b]` with only whitespace before `a` and after `b` and none at either end of the slice; it is empty exactly for all-whitespace input |
| Text.TrimIdempotent | script.js:159-167 | trimming twice is trimming once |
| Text.TrimKeepsCore | script.js:159-167 | what `trim` keeps is fixed by the whitespace at the ends |
| Text.SplitJoin | script.js:152 | joining the pieces of `split` with the separator gives back the text |
| Text.JoinSplit | script.js:152 | splitting joined lines on a character none of them holds gives back the lines |
| Text.SplitPiecesLackSeparator | script.js:152-165 | no piece of a split holds the separator |
| Text.SplitAtFirst | script.js:165 | for an occurrence of the separator with none before it, `split` gives the text before it followed by the pieces of the text after it |
| Text.SplitOneIff | script.js:152-165 | `split` gives a single piece exactly when the separator does not occur |
| Text.ContainsIff | script.js:164 | `includes` holds exactly when some occurrence exists |
| Text.CharNotContainedIff | script.js:152 | a one-character pattern is contained exactly when the character occurs |
| Formatter.FormatLineByLine | script.js:218-223 | a line followed by `\n` is formatted on its own, and the newline becomes `<br>` |
| Formatter.MarkupLineByLine | script.js:219-222 | before the newline step, the four replacements rewrite the first line on its own and keep the line terminator after it, for every kind of terminator |
| Formatter.FormatJoin | script.js:218-223 | lines without line terminators joined by `\n` are formatted one by one and joined by `<br>` |
| Formatter.FormatRecipeResponse | script.js:216-228 | the formatted reply holds no `\n`: every newline became `<br>` |
| Formatter.FormatPlain | script.js:218-223 | text without `#` and `*` only has its newlines replaced by `<br>` |
| Formatter.FormatH3 | script.js:219 | a line `### x`, with no `*` and no line terminator in x, becomes `<h3>x</h3>`; the `## ` step does not touch it |
| Formatter.FormatH2 | script.js:220 | a line `## x`, with no `*` and no line terminator in x, becomes `<h2>x</h2>` |
| Formatter.FormatBold | script.js:221 | a line that opens with `**x**` has that run in bold and the rest `y` unchanged, when neither x nor y holds a `*` or a line terminator |
| Formatter.FormatItalic | script.js:222 | a line that opens with `*x*`, x not empty, has that run in italics and the rest `y` unchanged, when neither x nor y holds a `*` or a line terminator; the bold step does not match it |
| Formatter.FormatThreeLines | script.js:218-223 | three lines joined by `\n` are formatted one by one and joined by `<br>` |
| Formatter.HeaderBoldItalic | script.js:219-223 | a `### ` line, a line opening in bold and a line opening in italics become an `<h3>`, a `<strong>` run and an `<em>` run separated by `<br>` |
| Formatter.FormatRecipeExample | script.js:216-228 | the reply `### Ingredients`, `**2 cups** flour`, `*optional* sugar` becomes `<h3>Ingredients</h3><br><strong>2 cups</strong> flour<br><em>optional</em> sugar` |
| Formatter.EmphasisFirstClose | script.js:221-222 | the group is lazy: a match closes at the first delimiter after it opens, and the scan resumes after that delimiter |
| Formatter.EmphasisCons | script.js:221-222 | no emphasis match spans a line terminator |
| Formatter.HeadingsCons | script.js:219-220 | the heading steps rewrite each line on its own and keep the terminators |
| Formatter.HeadingsIdentity | script.js:219-220 | text without `#` is left alone by the heading steps |
| Formatter.EmphasisIdentity | script.js:221-222 | text without `*` is left alone by the emphasis steps |
| Formatter.EmphasisNoOpen | script.js:221-222 | text in which the delimiter occurs nowhere is left alone |
| Formatter.EmphasisNoTerminator | script.js:221-222 | the emphasis steps add no line terminator to a line |
| Formatter.BreakLinesIsSplitJoin | script.js:223 | replacing every `\n` by `<br>` is splitting on `\n` and joining with `<br>` |
| ChiefAIClient.CallChiefAI | script.js:61-96 | the loop makes between 1 and `retries + 1` attempts. Every attempt but the last failed. The result is the last attempt's. A failure means every attempt was used. The result equals the recursive `Call` |
| ChiefAIClient.CallFirstSuccess | script.js:87-93 | the first successful attempt decides the call, and its reply is returned |
| ChiefAIClient.CallAllFail | script.js:89-95 | when every attempt fails, the last attempt's error is surfaced |
| ChiefAIClient.CallFailsIff | script.js:87-95 | the call fails exactly when each of its `retries + 1` attempts fails |
| ChiefAIClient.CallIsOneAttempt | script.js:61-96 | the result is one attempt's among the first `retries + 1`, all earlier ones failed, and a failure is the last attempt's |
| ChiefAIClient.DefaultAttemptBound | script.js:61 | with the default `retries = 3`, at most four attempts are made |
| ChiefAIClient.AttemptResult | script.js:72-87 | an attempt succeeds exactly when the response is ok and its `reply` is truthy, and then returns that reply |
| ChiefAIClient.ErrorTextFallback | script.js:74-78 | the error is `error` when truthy, else `message` when truthy, else `Request failed with status ` followed by the decimal digits of the status |
| ChiefAIClient.ErrorText | script.js:74-78 | the message of the error thrown for a response that is not ok is never empty |
| ChiefAIClient.Call | script.js:61-96 | the recursive retry: a success carries a non-empty reply, and a failure is the result of the last of the `retries + 1` attempts |
| ChiefAIClient.FailureMessageNonEmpty | script.js:72-85 | a failed attempt's message is not empty when what was thrown had a message |
| ChiefAIClient.ThreeDigits | script.js:77 | a three-digit status prints as its three digits |
| ErrorMessages.ShowErrorMessage | script.js:135-146 | the branch chain picks the text of `Classify(error)` |
| ErrorMessages.Classify | script.js:136-144 | the notice of the first substring test that holds; no contract of its own, the order of the tests is stated by `ClassifyPriority` |
| ErrorMessages.ClassifyPriority | script.js:136-144 | network if `Failed to fetch`; else server if `500` or `Internal Server Error`; else rate limit if `Request failed with status 429`; else generic |
| ErrorMessages.NoticeTextInjective | script.js:136-143 | the four texts differ |
| ErrorMessages.StatusNotice | script.js:138-143 | a non-ok response whose body names no error, so that its message is `Request failed with status N` (line 77), shows the server text for 500, the rate-limit text for 429, and the generic text for every other three-digit status |
| ErrorMessages.EmptyReplyNotice | script.js:136-144 | an empty reply, whose message is set on line 84, shows the generic text |
| ErrorMessages.NetworkFailureNotice | script.js:138-139 | a message starting with `Failed to fetch` shows the network text |
| ErrorMessages.GenericWithout | script.js:136-144 | a message without `F`, `5`, `I` and `4` shows the generic text |
| Prompts.CreateInitialPrompt | script.js:99-105 | the initial prompt starts with `I have these ingredients: ` |
| Prompts.CreateDetailPrompt | script.js:107-114 | the detail prompt starts with `Provide detailed instructions for: ` |
| Prompts.InitialPromptCarriesIngredients | script.js:99-105 | the ingredients can be read back out of the initial prompt unchanged |
| Prompts.DetailPromptCarriesName | script.js:107-114 | the recipe name can be read back out of the detail prompt unchanged |
| Prompts.SlotOfFill | script.js:99-114 | what is filled into a template's slot is what reading the slot gives back |
| Prompts.PromptsInjective | script.js:99-114 | different inputs give different prompts |
| Prompts.PromptsDistinct | script.js:99-114 | no initial prompt is a detail prompt |
| Prompts.RequestedFormatOneRecord | script.js:149-178 | a reply in the format the initial prompt asks for on line 104 gives one record with an empty description and the field of its labelled line as ingredients, unless its second line itself starts with `## ` |
| Prompts.RequestedFormatLeavesDescriptionEmpty | script.js:164-167 | in such a reply whose description and ingredients hold no `I`, the record's ingredients are the ingredients, trimmed |
| Prompts.FormatExampleLeavesDescriptionEmpty | script.js:104 | the prompt's own example parses to name `[Name]`, description empty and ingredients `[ingredients]` |
| ResponseInterpreter.HandleUserMessage | script.js:33-58 | the decision part of sending a message: nothing for a blank message, else the processed reply or the notice for the error; no contract of its own, its behaviour is stated by `HandleUserMessageOutcome` |
| ResponseInterpreter.ProcessAIResponse | script.js:116-127 | the result is cards, raw text or formatted text; cards are the parsed records, and there is at least one |
| ResponseInterpreter.InitialReply | script.js:118-124 | in initial mode the raw reply is shown exactly when no line starts with `## `; otherwise there is one card per such line |
| ResponseInterpreter.DetailReply | script.js:125-126 | in detail mode the formatted reply is always shown, with no newline in it |
| ResponseInterpreter.RequestedFormatCard | script.js:118-121 | a reply in the requested format, whose second line does not start with `## `, shows one card with an empty description; without `I` in the description and ingredients, its ingredients are the ingredients, trimmed |
| ResponseInterpreter.HandleUserMessageOutcome | script.js:33-58 | nothing is sent exactly when the message is all whitespace; otherwise a reply is shown as `processAIResponse` makes it in the request's mode, a failure shows the notice for the last attempt's error, and a notice is shown exactly when all four attempts failed |
| ResponseInterpreter.PromptForCarriesMessage | script.js:45-48 | the prompt for the mode carries the trimmed message |

## Left out

- DOM wiring, textarea resizing, the typing indicator, scrolling and the rendering of messages and cards (script.js:4-31, 180-214, 230-263). `appendMessage` and `showRecipeSuggestions` are not part of this model. `Display` names what would be shown.
- The `fetch` call, its headers, reading JSON bodies, and the one-second delay before each retry (script.js:63-70, 73, 81, 92). Each attempt's result is an `Outcome` given by the transport parameter. The delay and the `console` output are not modelled.
- Mode detection through `document.querySelector('.recipe-suggestion')` (script.js:45). The mode is a parameter.
- The `catch` blocks of `parseSuggestions`, `processAIResponse` and `formatRecipeResponse` (script.js:128-131, 174-177, 224-227), with the fallback text they show. On string input the modelled functions cannot fail. These blocks catch only failures of rendering calls or of a reply that is not a string, and neither is modelled.
- `currentSuggestion` is modelled as a record value that is replaced, not an object whose fields change. A record is pushed only when it is complete, so no alias to it remains.
- Text.Trim: removes an explicit set of whitespace characters. These are the ASCII blanks and line terminators, no-break space, byte-order mark, and U+2028 and U+2029. The remaining Unicode space separators that JavaScript's `trim` removes are not included.
- ChiefAIClient.AttemptResult: a `reply` or `error` field that is truthy but not a string is not modelled. Fields are absent or strings.
- ChiefAIClient.CallChiefAI: `retries` is a natural number. A negative argument is not modelled, and the script never passes one.
- Formatter.FormatRecipeResponse: follows JavaScript's regular-expression semantics for the patterns used. `.` and the multiline anchors treat `\n`, `\r`, U+2028 and U+2029 as line terminators. Nothing beyond these five patterns is modelled.
- ErrorMessages.StatusNotice: covers three-digit statuses only, which is every status a `fetch` response can carry.
- HTML escaping is not modelled. The script inserts names, replies and formatted text as `innerHTML`, and the model treats all of them as plain strings.

# Burnlab support chat: a Dafny model of the chat page's logic

The chat page (`app/page.tsx`) is a React component that sends the user's
question to a remote support agent and shows the conversation. Under its
markup it holds four pieces of plain logic, and this project models each of
them and proves what it promises:

- **Inline formatter** (`formatInline`, `formatBoldItalic`, `formatItalic`),
  module `Inline` in `inline.dfy`. A line is split with JavaScript's
  `String.prototype.split` on three global regular expressions in turn:
  `[label](url)` links, lazy `**…**` strong text and lazy `*…*` emphasis.
  Each regular expression is written as a hand-made matcher (`MatchAt`), and
  `split` as the loop of `RegExp.prototype[@@split]` (`SplitFrom`: leftmost match,
  text before it, its capture groups, then the rest). React flattens the
  nested arrays of nodes the source builds, so a line renders as a flat
  sequence of `Span`s: `Plain`, `Strong`, `Em` and `Link(text, href)`.
- **Block renderer** (`renderMarkdown`), module `Markdown` in
  `markdown.dfy`. The text is cut at every `'\n'`. Each line is classified
  on its own by the first of eight tests that holds: `### `, `## `, `# `,
  `- `/`* `, `^\d+\.\s`, the (unreachable) nested-bullet test, blank, and
  paragraph. The matched marker is removed and the rest is formatted inline.
- **Reply extraction** inside `sendMessage`, module `Normalizer` in
  `normalizer.dfy`. The agent's loosely typed payload is a `Json` value with
  JavaScript truthiness. The answer is the first truthy value of an `||`
  chain, with a fixed apology as the last resort. The suggestion and source
  lists are guarded by `Array.isArray`.
- **Conversation state** (`sendMessage`, `retryLastMessage`, the display
  expressions), module `Chat` in `chat.dfy`. Class `ChatPage` holds the
  page's state (transcript, input, loading flag, session id, chips, sample
  switch, agent marker). The asynchronous `sendMessage` is cut at its one
  `await`: `Submit` runs up to the agent call and returns the request it
  would send, and `Resolve` applies the call's outcome. Module
  `ChatScenarios` runs whole conversations on a fresh page.

`text.dfy` (module `Text`) holds the JavaScript string primitives the page
uses: the white-space set of `\s` and `trim`, the line terminators that `.`
does not match, `startsWith`, `trim` and `split` on one character.
`wrappers.dfy` holds `Option`.

The code's behaviour is easy to misread in these places; the model follows
the code:

- `retryLastMessage` removes every error message, wherever it stands, not
  only the trailing ones. It does nothing only when the transcript has no
  user message at all, whether or not an error is present.
- A link label is rendered literally: it is not searched for bold or italic
  markup. The text of strong markup is literal too, so emphasis inside it is
  not recognised.
- The link pattern needs a non-empty label and a non-empty url, so `[](x)`
  is not a link and stays text.
- The nested-bullet test runs on the trimmed line, which can never start
  with three spaces. The branch is dead. An indented `   - item` line (as in
  the sample pricing answer) renders as a paragraph of the whole line,
  indentation included.
- JavaScript's `||` passes any truthy value through, so the "answer" can be
  a number, array or object taken from the payload. `Reply.answer` and
  `Message.content` are therefore `Json` values. A user message always holds
  a string; the page's `Valid()` invariant says so. Such a value reaches
  `renderMarkdown`, which has no `split` to call on it: the bubble fails to
  render (`RenderContent`). Likewise a suggestion that is a number, a
  boolean, `null` or an array becomes a chip, and clicking it throws at
  `trim` before anything changes (`ClickChip`). An object suggestion cannot
  be rendered as the chip's label, so the chip row itself fails to render
  and there is no chip to click.
- Reading `success` off a `null` or `undefined` result throws. The `catch`
  turns that into the error message, as for a failed call.

## Model

| member | source | states |
|---|---|---|
| Text.StartsWith | app/page.tsx:132-156 | `startsWith`: the prefix occurs at position 0 of the text |
| Text.TrimEnd | app/page.tsx:371 | dropping trailing white space leaves a prefix of the input, the dropped part is all white space, and the prefix does not end with white space |
| Text.Trim | app/page.tsx:371 | `trim`: the result neither starts nor ends with JavaScript white space, is no longer than the input, and is empty exactly when the input is all white space |
| Text.TrimIsSlice | app/page.tsx:371 | `trim` removes white space and nothing else: the result is a slice of the input with only white space before and after it |
| Text.TrimOfTrimmed | app/page.tsx:371 | text that neither starts nor ends with white space is its own trim |
| Text.TrimIdempotent | app/page.tsx:371 | trimming twice gives the same text as trimming once, so re-sending a stored user message sends it unchanged |
| Text.SplitOn | app/page.tsx:131 | `split('\n')` gives one more part than there are newlines; no part holds a newline; joining the parts with newlines gives the text back |
| Text.SplitOnNone | app/page.tsx:131 | text without the separator splits into itself alone |
| Text.SplitOnFirst | app/page.tsx:131 | splitting at the first separator gives the part before it followed by the split of the rest |
| Inline.IndexOf | app/page.tsx:68 | the greedy `[^\]]+` / `[^)]+` scan stops at an occurrence of the excluded character at or after the start; that it is the first one is `IndexOfFirst` |
| Inline.IndexOfFirst | app/page.tsx:68 | no position between the start and the one the scan stops at (or the end, when it finds none) holds the excluded character |
| Inline.Close | app/page.tsx:96 | lazy `(.*?)` before a closing delimiter: it closes at an occurrence of the delimiter at or after the start; `CloseFirst` and `CloseReached` state which one |
| Inline.CloseFirst | app/page.tsx:96-112 | before the position where the lazy group closes, no line terminator and no earlier delimiter starts |
| Inline.CloseReached | app/page.tsx:96-112 | a delimiter reached from the start without crossing a line terminator makes the lazy group close |
| Inline.FindFrom | app/page.tsx:68 | the leftmost position at or after the start where the pattern matches; no earlier position matches |
| Inline.SplitFrom | app/page.tsx:68 | a split has one part more than a whole number of periods, a period being the pattern's groups plus the text after its match |
| Inline.SplitParts | app/page.tsx:68-112 | a split on the link pattern has `3k + 1` parts, and a split on the bold or italic pattern has `2k + 1` parts |
| Inline.MatchAt | app/page.tsx:68-112 | a match at a position consumes at least one character, stays inside the text and has one group per capture of its pattern; that every well-formed link, strong or emphasis occurrence is matched is stated by the `…MatchComplete` rows |
| Inline.IndexOfFinds | app/page.tsx:68 | the scan for an excluded character finds its first occurrence from the start position |
| Inline.LinkMatchComplete | app/page.tsx:68 | every `[label](url)` with a non-empty label free of `]` and a non-empty url free of `)` is matched at its `[`, with label and url as its groups, ending after its `)` |
| Inline.CloseAt | app/page.tsx:96-112 | the lazy group closes at the first delimiter reached without crossing a line terminator |
| Inline.StrongMatchComplete | app/page.tsx:96 | every `**t**` with no `**` and no line terminator in `t` is matched at its opening `**`, with `t` as the group |
| Inline.EmphasisMatchComplete | app/page.tsx:112 | every `*t*` with no `*` and no line terminator in `t` is matched at its opening `*`, with `t` as the group |
| Inline.DelimitedMatchFails | app/page.tsx:96-112 | without an opening delimiter, or with no reachable closing one, the bold or italic pattern does not match |
| Inline.NoStarNoItalic | app/page.tsx:112 | text with no `*` from a position on has no italic match from there to its end |
| Inline.EmphasisMatch | app/page.tsx:112 | in `a*t*b` with no `*` and no line terminator in `t`, the italic pattern matches at the `*` after `a`, with group `t`, ending after the second `*` |
| Inline.EmphasisSplit | app/page.tsx:112 | `a*t*b` with one pair of `*` and no line terminator in `t` splits into `a`, `t` and `b` |
| Inline.EmphasisBetween | app/page.tsx:111-125 | `a*t*b` with one pair of `*` and no line terminator in `t` renders as plain `a`, emphasis `t` and plain `b`, wherever the pair stands |
| Inline.EmphasisExample | app/page.tsx:111-125 | `a *b* c` renders as plain `a `, emphasis `b` and plain ` c` |
| Inline.LinkGroupsOk | app/page.tsx:68 | a link match has a non-empty label without `]` and a non-empty url without `)` |
| Inline.BoldGroupOk | app/page.tsx:96 | the text of a bold match holds no `**` and no line terminator |
| Inline.ItalicGroupOk | app/page.tsx:112 | the text of an italic match holds no `*` and no line terminator |
| Inline.SingleLinkMatch | app/page.tsx:68 | `[label](url)` matches at its first character, with the label and url as its groups and the whole line consumed |
| Inline.StrongClose | app/page.tsx:96 | the lazy bold group of `**t**` ends at the closing `**` |
| Inline.Split | app/page.tsx:68-112 | `text.split(regex)` for a global regex: the split loop started at index 0; no contract of its own, its part count and round trip are the `SplitFrom` and `SplitUnsplit` rows |
| Inline.SplitUnsplit | app/page.tsx:66-125 | restoring each match's delimiters around its groups and joining all parts gives back the text that was split |
| Inline.SplitGroupsOk | app/page.tsx:66-125 | every label is non-empty and free of `]`; every url is non-empty and free of `)`; strong text has no `**`; emphasis has no `*`; neither crosses a line terminator |
| Inline.FormatItalic | app/page.tsx:111-125 | the italic pass: the italic split, with odd parts made `Em` spans and even parts plain; a definition without a contract, whose properties are `FormatItalicSource` and `FormatItalicOk` |
| Inline.ItalicNodes | app/page.tsx:113-124 | the `map` over the italic split's parts from index `i` on; no contract of its own, `ItalicNodesSource` and `ItalicNodesOk` state it |
| Inline.FormatBoldItalic | app/page.tsx:94-109 | the bold pass: the bold split, with odd parts made `Strong` spans and even parts given to the italic pass; a definition without a contract, whose properties are `FormatBoldItalicSource`, `FormatBoldItalicOk`, `StrongCount` and `StrongBetween` |
| Inline.BoldNodes | app/page.tsx:97-108 | the `map` over the bold split's parts from index `i` on; no contract of its own, `BoldNodesSource` and `BoldNodesOk` state it |
| Inline.FormatInline | app/page.tsx:66-92 | the link pass: the link split, taken three parts at a time as text, label and url; a definition without a contract, whose properties are `FormatInlineSource`, `FormatInlineOk`, `LinkCount` and `LinkBetween` |
| Inline.LinkNodes | app/page.tsx:69-91 | the loop over the link split's parts from index `i` on, text to the bold pass, label and url to one `Link`, the url part itself skipped; no contract of its own, `LinkNodesSource`, `LinkNodesOk` and `LinkNodesCount` state it |
| Inline.FormatItalicSource | app/page.tsx:111-125 | `formatItalic` loses and invents no text: its spans with `*` restored spell out the input |
| Inline.FormatBoldItalicSource | app/page.tsx:94-109 | `formatBoldItalic` loses and invents no text: odd parts rewrapped in `**` and even parts' emphasis rewrapped in `*` give back the input |
| Inline.FormatInlineSource | app/page.tsx:66-92 | the whole inline pass loses and invents no text: labels and strong text are kept as written and each url survives only as its link's target |
| Inline.FormatItalicOk | app/page.tsx:111-125 | `formatItalic` makes no links, and its emphasis holds no `*` |
| Inline.FormatBoldItalicOk | app/page.tsx:94-109 | `formatBoldItalic` makes no links; its strong text holds no `**` |
| Inline.FormatInlineOk | app/page.tsx:66-92 | every span of a formatted line is well formed: each link has a non-empty label without `]` and a non-empty url without `)` |
| Inline.LinkCount | app/page.tsx:68-89 | a line whose link split has `3k + 1` parts renders exactly `k` link spans |
| Inline.BracketFreeHasNoLink | app/page.tsx:68 | a line without `[` has no link match |
| Inline.SplitWithoutMatch | app/page.tsx:68 | a split with no match returns the whole text as its only part |
| Inline.UnpairedStarVerbatim | app/page.tsx:69-124 | a line with no link match and at most one `*` is returned verbatim as one plain span |
| Inline.NoMarkupVerbatim | app/page.tsx:69-124 | a line with no link match and no `*` is returned verbatim as one plain span |
| Inline.LoneStarStaysLiteral | app/page.tsx:112-124 | `cost *a lot` renders as one plain span, its lone `*` included |
| Inline.SingleLinkSplit | app/page.tsx:68 | a line that is one `[label](url)` splits into empty text, the label, the url and empty text |
| Inline.SingleLinkLiteral | app/page.tsx:70-89 | such a line renders the label literally as a link to the url; the url part renders nothing |
| Inline.StrongSplit | app/page.tsx:96 | `**t**`, with no `**` inside `t`, splits into empty text, `t` and empty text |
| Inline.StrongLiteral | app/page.tsx:96-106 | `**t**` renders as one strong span holding `t` as written; an `*…*` inside it is not made emphasis |
| Inline.SplitAfterMatch | app/page.tsx:68-112 | when the first match of a split is at `i`, the split is the text before `i`, that match's groups, then the split of the text after the match, as if it stood alone |
| Inline.StrongCount | app/page.tsx:94-109 | a line whose bold split has `2k + 1` parts renders exactly `k` strong spans |
| Inline.StrongFirst | app/page.tsx:96 | in `a**t**b` with no `**` in `a`, `a` not ending in `*`, and `t` strong text that closes at its own `**`, the first bold match is the pair around `t` |
| Inline.StrongSplitAround | app/page.tsx:96 | the bold split of such a line is `a`, `t`, then the bold split of `b` |
| Inline.BoldNodesPair | app/page.tsx:97-108 | the bold `map` over `a`, `t` and further parts is the italic pass of `a`, a strong span `t`, then the `map` over the further parts |
| Inline.StrongBetween | app/page.tsx:94-109 | `a**t**b`, for such `a` and `t` and any `b`, renders as the italic pass of `a`, strong `t`, then `b` rendered as if it stood alone |
| Inline.LinkFirst | app/page.tsx:68 | in `a[x](y)b` with no `[` in `a`, a non-empty label `x` free of `]` and a non-empty url `y` free of `)`, the first link match is that link |
| Inline.LinkSplitAround | app/page.tsx:68 | the link split of such a line is `a`, `x`, `y`, then the link split of `b` |
| Inline.LinkNodesAfter | app/page.tsx:69-91 | the link loop over `[x, y, z] + rest` from `k + 3` on, for `k` the start of a period, is the loop over `rest` from `k` on: the index's place in the period is all that matters |
| Inline.LinkNodesTriple | app/page.tsx:69-91 | the link loop over `a`, `x`, `y` and further parts is the bold pass of `a`, one link `x` to `y`, then the loop over the further parts |
| Inline.LinkBetween | app/page.tsx:66-92 | `a[x](y)b`, for such `a`, `x` and `y` and any `b`, renders as the bold pass of `a`, a link `x` to `y`, then `b` rendered as if it stood alone |
| Markdown.DigitRun | app/page.tsx:156 | the length of the maximal run of ASCII digits at a position |
| Markdown.OrderedMarker | app/page.tsx:156 | `^\d+\.\s` matches a prefix of at least three characters that fits in the line |
| Markdown.Classify | app/page.tsx:132-172 | the if-chain of one line: which branch is taken and what is left of the line; no contract of its own, `ClassifyFirstMatch` and the marker lemmas below state it |
| Markdown.ToBlock | app/page.tsx:133-172 | the element each branch returns: heading level 3, 2 or 1, disc, decimal or nested list item, spacer or paragraph, with the rest formatted inline; a definition without a contract |
| Markdown.RenderLine | app/page.tsx:131-173 | one line's block: `ToBlock` of `Classify`; no contract of its own, `BulletMarkers`, `HeadingMarkers`, `BlankIff` and `NumeralIrrelevant` state it |
| Markdown.RenderMarkdown | app/page.tsx:127-131 | nothing for empty text; otherwise one block per `'\n'`-separated line, in order, one more than the number of newlines |
| Markdown.RenderTwoLines | app/page.tsx:131 | two lines joined by a newline render as those two lines' blocks |
| Markdown.ClassifyFirstMatch | app/page.tsx:132-173 | the branch taken is one whose test holds, and no test earlier in the if-chain holds |
| Markdown.MarkerRemoved | app/page.tsx:132-155 | headings and bullets lose exactly the marker their test matched |
| Markdown.OrderedMarkerRemoved | app/page.tsx:156-160 | an ordered item loses its digits, the dot and one white-space character, and nothing more |
| Markdown.OrderedDropsNumeral | app/page.tsx:156-160 | `N. rest` is classified as an ordered item of `rest` |
| Markdown.NumeralIrrelevant | app/page.tsx:156-160 | two ordered items that differ only in their numeral render alike |
| Markdown.FallthroughKeepsLine | app/page.tsx:168-172 | a blank line is all white space; a paragraph is not; both keep the whole line |
| Markdown.BlankIff | app/page.tsx:168 | a line renders as a spacer exactly when it is all white space |
| Markdown.NestedBranchUnreachable | app/page.tsx:162-167 | the nested-bullet branch is never taken, because the trimmed line cannot start with spaces |
| Markdown.TrimmedNotIndented | app/page.tsx:162 | a trimmed string does not start with `   - ` or `   * ` |
| Markdown.ClassifySpaceStart | app/page.tsx:132-172 | a line starting with white space is blank if all white space, a paragraph of the whole line otherwise |
| Markdown.IndentedLineIsParagraph | app/page.tsx:162-172 | an indented `   - item` or `   * item` line is a paragraph of the whole line |
| Markdown.OrderedMarkerOf | app/page.tsx:156 | `digits`, `.` and a white-space character form an ordered marker of that length |
| Markdown.ClassifyFallthrough | app/page.tsx:168-172 | a line that fails every marker test is blank if all white space and a paragraph of the whole line otherwise |
| Markdown.BulletMarker | app/page.tsx:150-155 | `- rest` and `* rest` are classified as bullets of `rest` |
| Markdown.BulletMarkers | app/page.tsx:150-155 | `- rest` and `* rest` render as a disc list item of `rest` |
| Markdown.HeadingMarkers | app/page.tsx:132-149 | `### `, `## ` and `# ` lines render as headings of their rest, whatever follows the marker |
| Markdown.ClassifyDigitStart | app/page.tsx:150-160 | a line that starts with a digit and has an ordered marker is classified as ordered |
| Normalizer.Truthy | app/page.tsx:392-401 | JavaScript truthiness: `undefined`, `null`, `false`, `0`, `NaN` and `""` are falsy, every other value (`[]` and `{}` included) is truthy; a definition without a contract |
| Normalizer.Or | app/page.tsx:392-401 | `a \|\| b`: a definition without a contract; the precedence it gives the answer candidates is stated by `AnswerPrecedence` |
| Normalizer.Get | app/page.tsx:396-411 | only an object supplies a field; any other value reads as `undefined` |
| Normalizer.AgentResult | app/page.tsx:392 | `result.response.result \|\| {}` is always truthy |
| Normalizer.Normalize | app/page.tsx:391-411 | the answer is truthy, so never empty, and is one of the five candidates or the fixed apology |
| Normalizer.AnswerPrecedence | app/page.tsx:395-401 | the answer is the first truthy candidate (result's `answer`, `text`, `message`, response's `message`, string result), else the apology |
| Normalizer.AnswerFieldWins | app/page.tsx:396 | a truthy `answer` field wins over every other candidate |
| Normalizer.EmptyAnswerSkipped | app/page.tsx:396-397 | an empty-string `answer` is skipped in favour of `text` |
| Normalizer.StringResultIsAnswer | app/page.tsx:400 | a plain string result is the answer, with no suggestions or sources |
| Normalizer.ListFields | app/page.tsx:404-411 | `suggested_questions` is preferred over `suggestedQuestions`, each only if it is an array; `sources` only if it is an array; otherwise empty |
| Normalizer.FalsyResultIsEmptyObject | app/page.tsx:392-401 | a falsy result reads as `{}`: no lists, and the answer is the response's `message` or the apology |
| Normalizer.EmptyPayloadFallback | app/page.tsx:395-411 | a payload with no recognised field gives the apology, no suggestions and no sources |
| Normalizer.SourcesNotAnArray | app/page.tsx:410-411 | a string `sources` field gives no sources |
| Normalizer.Accept | app/page.tsx:391-436 | a reply is produced only for a call that returned a non-nullish value with a truthy `response`, and it is the extraction of that response |
| Normalizer.AcceptIff | app/page.tsx:391 | a reply is produced exactly when the call returned a non-nullish value whose `success` and `response` are truthy |
| Normalizer.UnsuccessfulRejected | app/page.tsx:428-436 | `{success: false}` is rejected even when a response is present |
| Chat.UserMessage | app/page.tsx:375-379 | the user message for a text: role user, the text as content, no error flag; a definition without a contract, `UserMessageWellFormed` states what it keeps |
| Chat.ReplyMessage | app/page.tsx:413-419 | the assistant message for an accepted reply: its answer, suggestions and sources; a definition without a contract, `ReplyBubble` states how it renders |
| Chat.ErrorMessage | app/page.tsx:428-443 | the error message both failure paths append: an assistant message with the fixed apology and the error flag; a definition without a contract |
| Chat.SampleMessages | app/page.tsx:28-53 | the sample transcript of two user questions and two assistant answers; a definition without a contract, `SampleShowsChips` states what it shows |
| Chat.ChipsAfter | app/page.tsx:423-427 | the chips after a reply are never empty: they are the reply's suggestions when it has any and the default chips when it has none |
| Chat.UserMessageWellFormed | app/page.tsx:371-379 | a user message built from trimmed, non-empty text is well formed |
| Chat.AppendWellFormed | app/page.tsx:380 | appending a well-formed message keeps the transcript well formed |
| Chat.WithoutErrors | app/page.tsx:470 | the filter drops every error message, keeps every other message and adds none; a transcript without errors is unchanged |
| Chat.WithoutErrorsAppend | app/page.tsx:470 | filtering a concatenation concatenates the filtered parts, so the kept messages keep their order and their number of occurrences |
| Chat.WithoutErrorsSingle | app/page.tsx:470 | a single message is kept exactly when it is not an error |
| Chat.WithoutErrorsWellFormed | app/page.tsx:470 | the filter keeps the transcript well formed |
| Chat.LastUser | app/page.tsx:467 | the index of the last user message, with no user message after it; none when there is no user message |
| Chat.LastUserText | app/page.tsx:467 | the last user message's text, which is non-empty and its own trim; none exactly when there is no user message |
| Chat.Displayed | app/page.tsx:364 | a real transcript is shown as it is; nothing is shown only when the transcript is empty and sample data is off |
| Chat.DisplayedChips | app/page.tsx:365-367 | the current chips are offered whenever the transcript is not empty |
| Chat.ShowChips | app/page.tsx:475-477 | chips follow a response when something is shown, the last message is a non-error assistant message and no reply is awaited; a definition without a contract, `ChipsXorRetry` relates it to the retry button |
| Chat.ShowRetry | app/page.tsx:516 | the retry button shows when the last message shown is an error and no reply is awaited; a definition without a contract |
| Chat.ChipsXorRetry | app/page.tsx:475-517 | the chips and the retry button are never shown together, and neither is shown while a reply is awaited |
| Chat.SampleShowsChips | app/page.tsx:364-367 | with sample data on and no messages, the sample chips are shown and the retry button is not |
| Chat.RenderContent | app/page.tsx:127-131 | `renderMarkdown(message.content)` in a non-error assistant bubble: a definition without a contract; `ReplyBubble` (a reply's bubble renders blocks exactly when its answer is a string) and `NumericAnswerFailsToRender` state it |
| Chat.ReplyBubble | app/page.tsx:215-225 | the bubble of an appended reply renders blocks exactly when its answer is a string, and fails to render otherwise |
| Chat.NumericAnswerFailsToRender | app/page.tsx:391-419 | `{answer: 42}` is accepted, and the message it appends fails to render |
| Chat.PlansAccepted | app/page.tsx:391-411 | a successful reply whose result holds only an answer is accepted with that answer and empty lists |
| Chat.PlainLine | app/page.tsx:66-125 | a line without `[` or `*` is one plain span |
| Chat.HeadingThenBullet | app/page.tsx:127-155 | `### title` then `- item` render as a level-3 heading and a disc item |
| Chat.PlansRendered | app/page.tsx:127-155 | the answer `### Plans` / `- Starter` renders as a level-3 heading and a disc item |
| Chat.ChatPage.constructor | app/page.tsx:330-336 | the page starts with no messages, empty input, not loading, the default chips and no agent marker |
| Chat.ChatPage.SetInput | app/page.tsx:567 | the text area's change handler sets the input and nothing else |
| Chat.ChatPage.SetShowSampleData | app/page.tsx:498-501 | the sample switch sets its flag and nothing else |
| Chat.ChatPage.Submit | app/page.tsx:370-384 | blank text or a pending reply changes nothing and sends nothing; otherwise one user message with the trimmed text is appended, the input is cleared, loading starts and the trimmed text is sent with the session id |
| Chat.ChatPage.Resolve | app/page.tsx:386-449 | exactly one assistant message is appended: the extracted reply with chips set to its suggestions or the defaults, or the error message with chips unchanged; loading always ends; chips are then shown exactly when the call succeeded and the retry button exactly when it failed |
| Chat.ChatPage.Retry | app/page.tsx:466-473 | without a user message nothing changes; otherwise every error message is removed, and the last user message's text is sent again as a new user message unless a reply is still awaited |
| Chat.ChatPage.ClickChip | app/page.tsx:453-455 | a chip that is not a string throws at `trim` and changes nothing; a string chip goes through the guard of `sendMessage`, and when sent it is appended trimmed, the input is cleared, loading starts, the agent is marked active, and the chips, session and sample-data flag are unchanged |
| ChatScenarios.SingleFlight | app/page.tsx:370-383 | a second submission while a reply is awaited sends nothing and the transcript keeps its one user message |
| ChatScenarios.FailThenRetry | app/page.tsx:437-473 | after a failed call, retry removes the error message and sends the same text with the same session again |
| ChatScenarios.PricingChipTrimmed | app/page.tsx:22 | the chip text "Pricing & Plans" is its own trim |
| ChatScenarios.PricingConversation | app/page.tsx:370-427 | sending "Pricing & Plans" and accepting `### Plans` / `- Starter` appends an assistant message that renders as a heading and a bullet, resets the chips to the defaults and shows them |

## Left out

- `callAIAgent`, the network call to the agent, is not part of this model. Its result is the `Outcome` parameter of `Resolve`: a returned value or an exception.
- `Date.now()` in message ids is the `now` parameter. Ids are not unique and nothing relies on them.
- Minting the session id from the clock and `Math.random()` is left out. The constructor takes the session id as a parameter.
- `useLyzrAgentEvents`, `agentActivity.setProcessing` and `AgentActivityPanel` are telemetry with no effect on the page's state. They are not part of this model.
- The host name shown for a source (`new URL(source).hostname`) is computed by the browser's URL parser. It is not part of this model.
- Markup, styles, icons, React keys, scrolling, focus, the Enter-key handler and the text area's `maxLength` are presentation only. The Enter handler calls `sendMessage(inputValue)`, which is `Submit`; the chip handler is `ClickChip`.
- Concurrency is left out: `Submit` and `Resolve` run as strictly sequential steps. Stale React closures and two overlapping `sendMessage` calls are not modelled.
- Strings are sequences of Unicode scalar values, not UTF-16 code units. None of the patterns here looks inside a surrogate pair, so the parts and spans are the same.
- Numbers in the payload are reals with a separate `NaN`. That is all truthiness needs; arithmetic on them is not modelled.
- A bubble whose content has no `split` is `RenderFails`. What React does with the thrown error (it unmounts the page) is not modelled.
- Rendering the chip row is not modelled. A suggestion that is a plain object makes that row fail to render (app/page.tsx:271 puts the chip itself in the button). `DisplayedChips` still lists such a chip, and `ClickChip` treats it like any other non-string chip.

# GlobalLaunch AI chat front-end: a Dafny model

GlobalLaunch AI is a browser chat application. It advises on taking a hardware product abroad.
Every answer comes from an external language model. What the application itself decides is the
bookkeeping around that call. This project models that bookkeeping as pure functions over
immutable datatypes and proves what each step promises:

- the session list: create, load, delete with fallback, startup selection, saving, and the sync
  step that copies the working conversation into the active session, names it and re-sorts the
  list by recency (`SessionStore`, over the state record in `AppState`);
- the conversation handlers: sending a message, switching mode, loading a demo scenario
  (`Conversation`), and attaching and removing files (`Upload`);
- the service layer: the history sent to the model, `cleanBase64`, splitting a reply into text
  and chart around the first `json_chart` fence, error texts, and the expert context quoted to
  the persona (`GeminiService`, `ChartFence`);
- the consumers of the `[[CHART_PLACEHOLDER]]` marker: the message bubble, the copy button and
  the HTML report (`MessageView`);
- what the chart components draw and in which colour band (`VisualModels`);
- the persona form (`PersonaConfigurator`);
- the data model (`Types`), and the JavaScript string and number built-ins these rely on:
  `trim`, `indexOf`, `replace`, `split`, `parseInt` and `toString` (`Text`, `Numerals`).

An asynchronous handler is two transitions. The first runs up to the service call and names
the request it makes. The second takes the call's result and finishes. The model call and
`JSON.parse` are oracles passed in as function parameters. The clock is a parameter `now`.
Browser storage is a field of the state record.

The model follows the code as written, including these behaviours:

- A file that fails to read drops the whole upload batch: the pending list stays as it was.
  Only oversized files are skipped one by one.
- A fenced block that parses as JSON but has no truthy `type` or `data` is not treated as a
  parse failure. The placeholder still replaces the block; only the chart is missing.
- The reply text is trimmed after the fence is replaced. So the narrative is not reproduced
  byte for byte: leading white space before the fence and trailing white space after it are
  lost (`MessageView.ReplyViewPlacesChart` states exactly what is shown).
- A failed model call is not reported to the conversation as a failure. The service turns it
  into a reply text starting with `错误: `. Only a missing API key makes the call reject, and
  only then does the fixed apology appear.
- Not every chart renders without error. An `assessment` tag over data of another shape makes
  the card read fields of a missing object. The `try` around the dispatch only creates the
  element, so it does not catch that error. The model returns `RenderFailure` there. The
  report has the same weakness: its chart-to-HTML conversion also reads the data without
  checking its shape. When it throws for any chart, the whole report is abandoned and nothing is
  downloaded.
- The list is re-sorted only by the sync step. Create, delete and startup keep the order they
  are given.

## Model

| member | source | states |
|---|---|---|
| Types.ParseChartType | types.ts:14 | a chart tag is a chart type exactly when it is one of the three names `swot`, `radar`, `assessment` |
| Types.ChartTypeRoundTrip | types.ts:14 | the chart types have pairwise distinct names, so reading a type's name gives the type back |
| Types.ParseLevel | types.ts:44-50 | only `Low`, `Medium` and `High` are levels; any other text is none |
| Types.LevelRoundTrip | types.ts:44-50 | reading a level's name gives the level back |
| Types.ParseDecision | types.ts:63 | only `GO`, `NO-GO` and `CONDITIONAL` are decisions |
| Types.DecisionRoundTrip | types.ts:63 | reading a decision's name gives the decision back |
| Types.RoleNamesDistinct | types.ts:1-5 | two message roles have the same name exactly when they are the same role |
| Types.ModeNamesDistinct | types.ts:97-100 | two modes have the same name exactly when they are the same mode |
| AppState.Load | App.tsx:237-243 | loading makes the session active, copies its messages, mode and persona, and clears pending attachments; the list, composer text, busy flag and storage are untouched |
| SessionStore.Insert | App.tsx:215 | inserting into a recency-sorted list keeps it sorted, adds exactly one copy of the session and keeps every other element |
| SessionStore.SortByRecency | App.tsx:215 | the result is sorted most recent first and is a permutation of the input |
| SessionStore.InsertStable | App.tsx:215 | an inserted session goes in front of every session with the same time already in the list; since the sort inserts each session into the sorted rest of the list, this keeps equal times in their input order |
| SessionStore.SortIsStable | App.tsx:215 | the sessions with any given time keep their relative order, as `Array.prototype.sort` guarantees |
| SessionStore.SortKeepsSorted | App.tsx:215 | a list already in recency order comes back unchanged |
| SessionStore.FirstUserMessage | App.tsx:210 | the index found holds a user message and no earlier one does; none is found only when there is no user message |
| SessionStore.Prefix | App.tsx:210 | `slice(0, 20)`: the first n characters, or the whole text when it is shorter |
| SessionStore.AutoTitle | App.tsx:209-211 | a title other than the default, or a session with at most one message, is kept; otherwise the title is the first 20 characters of the first user message, or the default when there is none or its text is empty |
| SessionStore.SyncAll | App.tsx:200-214 | each session is mapped in place, position by position |
| SessionStore.Sync | App.tsx:197-216 | without an active id (or with an empty one) nothing changes; otherwise only the list changes, it is sorted by recency and is a permutation of the mapped list |
| SessionStore.SyncUpdatesOnlyActive | App.tsx:200-214 | after a sync, sessions with another id are exactly those that were there, and every session with the active id carries the working messages, mode, persona and the sync time |
| SessionStore.SyncAllKeepsOthers | App.tsx:200-214 | the mapping passes sessions with another id through unchanged, in both directions |
| SessionStore.SyncAllUpdatesActive | App.tsx:201-212 | the mapping gives every session with the active id the working messages, mode, persona and time |
| SessionStore.NewSession | App.tsx:219-231 | a new session has the default title, expert mode, the default persona and the single model message `init-1`, and its id reads back as the creation time |
| SessionStore.Create | App.tsx:218-235 | creating prepends exactly one new session and loads it |
| SessionStore.WithoutId | App.tsx:247 | the filtered list holds exactly the sessions whose id differs |
| SessionStore.WithoutIdAppend | App.tsx:247 | the filter commutes with concatenation, so the remaining sessions keep their order and multiplicity |
| SessionStore.WithoutIdOne | App.tsx:247 | a single session stays exactly when its id differs |
| SessionStore.Delete | App.tsx:245-258 | every session with the id goes and the reduced list is stored at once; a surviving active session stays active; deleting the active one loads the first remaining session's messages, mode and persona, or, when none is left, creates a session and loads its welcome message, expert mode and default persona; pending attachments are cleared and the composer is untouched |
| SessionStore.Startup | App.tsx:168-187 | a stored non-empty list is restored with its first session's messages, mode and persona loaded; nothing stored, an unreadable record or an empty list leads to one new session, loaded with its welcome message, expert mode and default persona |
| SessionStore.Persist | App.tsx:190-194 | a non-empty list is written to storage; an empty one is not |
| SessionStore.PersistThenStartup | App.tsx:168-194 | saving and reopening restores the same list with its first session loaded |
| SessionStore.StartupListsActive | App.tsx:168-187 | after startup the active id names a listed session |
| SessionStore.CreateListsActive | App.tsx:218-235 | after creating, the active id names a listed session |
| SessionStore.DeleteListsActive | App.tsx:245-258 | deleting keeps the active id naming a listed session |
| SessionStore.SyncListsActive | App.tsx:197-216 | a sync keeps the active id naming a listed session |
| Conversation.BeginSend | App.tsx:535-556 | while busy, or with blank text and no attachment, nothing happens; otherwise one user message with the untrimmed text and a copy of the pending list is appended, the composer is cleared, the busy flag set, and the mode picks the service |
| Conversation.SendIsGated | App.tsx:536 | the guard: busy, or blank text with nothing attached, is a no-op |
| Conversation.ReplyMessage | App.tsx:559-575 | the reply carries the service's text and chart, or the fixed apology and no chart when the call rejected |
| Conversation.FinishSend | App.tsx:559-578 | exactly one model message is appended and the busy flag is cleared on every path |
| Conversation.SendThenFinish | App.tsx:535-579 | a send run to completion leaves the old messages, then the user message, then the reply, and an idle, empty composer |
| Conversation.SendRoundTrip | App.tsx:535-579 | with the real service in between, the list grows by exactly two: the user's message and one model reply |
| Conversation.ReplyTexts | App.tsx:551-575 | without an API key the apology appears; a failed expert call yields the error prefix; a persona reply never has a chart |
| Conversation.ReplyOnSuccess | App.tsx:551-566 | when the model answers, the expert reply carries the text and chart of the answer split around its first fence, and the persona reply carries a non-empty answer as it came, with no chart |
| Conversation.ModeChange | App.tsx:458-470 | switching always appends exactly one model message announcing the destination mode, even to the same mode, and clears pending attachments |
| Conversation.ModeTextDependsOn | App.tsx:463-465 | the persona announcement depends only on the country and age, and never equals the expert one |
| Conversation.LoadExample | App.tsx:260-296 | unless busy, a demo session with the greeting and the scenario's prompt goes to the front and becomes the working copy, and the expert is asked with only the greeting as history |
| Conversation.FinishExample | App.tsx:298-317 | exactly one model message is appended, the reply or the fixed demo failure text, and the busy flag is cleared |
| Conversation.DemoIntroNamesTopic | App.tsx:267 | the greeting names the scenario title with its `示例: ` prefix removed |
| Conversation.DemoIdsDistinct | App.tsx:264-275 | the two seeded messages get distinct ids |
| Upload.Lower | App.tsx:482 | lower-casing keeps the length and maps each character |
| Upload.LastPieceIsAfterLastDot | App.tsx:482 | the last piece of a split on dots is the dot-free suffix after the last dot |
| Upload.ExtensionIsAfterLastDot | App.tsx:482 | the extension is the lower-cased text after the last dot, or the whole lower-cased name without a dot |
| Upload.InferMime | App.tsx:481-498 | an empty reported type is replaced by the table's type for the extension or by `application/octet-stream`; `text/plain` for `md` becomes `text/markdown`; any other reported type is kept |
| Upload.WithinLimit | App.tsx:511-520 | the files kept are exactly those of at most 10 MiB |
| Upload.WithinLimitAppend | App.tsx:511-520 | the filter commutes with concatenation, so the files kept stay in the order they were picked |
| Upload.WithinLimitOne | App.tsx:512 | a single file is kept exactly when it is at most 10 MiB |
| Upload.ToAttachments | App.tsx:496-500 | one attachment per file, in order, with the name, the inferred type and the data read |
| Upload.Ingest | App.tsx:510-525 | oversized files are skipped; a read failure leaves the pending list unchanged; otherwise the new attachments follow the pending ones in order |
| Upload.SizeGateBoundary | App.tsx:512 | exactly 10 MiB is accepted, one byte more is not |
| Upload.RemoveAttachment | App.tsx:531-533 | removing a position takes out exactly that attachment; an index outside the list changes nothing |
| Upload.DropIndexInside | App.tsx:532 | filtering by index drops exactly the element at that position |
| Upload.DropIndexOutside | App.tsx:532 | filtering by an index outside the list drops nothing |
| GeminiService.DataUrlMarker | services/geminiService.ts:5 | the anchored expression matches at the last marker that is on the first line, and at no marker when none fits |
| GeminiService.CleanBase64 | services/geminiService.ts:5 | text that is not a data URL is left alone; otherwise everything up to the last matching `;base64,` is removed |
| GeminiService.CleanBase64OfDataUrl | services/geminiService.ts:5 | a file reader's `data:<mime>;base64,<payload>` comes back as the bare payload |
| GeminiService.NonSystem | services/geminiService.ts:113-114 | the messages sent are exactly the non-system ones |
| GeminiService.NonSystemAppend | services/geminiService.ts:113-114 | the filter commutes with concatenation, so the messages sent keep their order and multiplicity |
| GeminiService.NonSystemOne | services/geminiService.ts:114 | a single message is sent exactly when it is not a system message |
| GeminiService.AttachmentParts | services/geminiService.ts:116-124 | one inline part per attachment, in order, with its type and cleaned data |
| GeminiService.HistoryContents | services/geminiService.ts:113-130 | one content per non-system message, in order |
| GeminiService.ExpertContents | services/geminiService.ts:110-143 | the expert request has one turn per non-system message plus the current turn last; user maps to the user role and every other role to the model role; each history turn is its text followed by its attachments as cleaned inline parts |
| GeminiService.PersonaContents | services/geminiService.ts:232-249 | the persona request sends history as text only, and the current turn with its attachments last |
| GeminiService.PersonaIsExpertWithoutHistoryAttachments | services/geminiService.ts:232-249 | the two requests have the same turns, roles and texts and the same current turn; only history attachments differ |
| GeminiService.ChartOf | services/geminiService.ts:166-167 | a parsed value is the chart exactly when it is an object with truthy `type` and `data` |
| GeminiService.Decompose | services/geminiService.ts:156-176 | without a fence the text is returned verbatim with no chart; a chart is only ever the parsed fence content |
| GeminiService.SpanFirstOccurrence | services/geminiService.ts:169 | the matched span's first occurrence is the match itself, because it starts with the tag |
| GeminiService.ReplaceSpan | services/geminiService.ts:169-172 | `replace` of the matched span cuts exactly the matched characters |
| GeminiService.DecomposeUnparsed | services/geminiService.ts:170-173 | when the content does not parse, the span is removed, the rest trimmed and no chart attached |
| GeminiService.DecomposeParsed | services/geminiService.ts:164-169 | when the content parses, the placeholder takes the span's place and the result is trimmed; a chart is attached exactly when the object has a type and data |
| GeminiService.NoFenceKeepsText | services/geminiService.ts:159-176 | with no match anywhere, the reply is the model's text verbatim and untrimmed |
| GeminiService.ExpertReply | services/geminiService.ts:156-180 | a returned text is split around its first fence, and a missing one counts as empty; an error yields `错误: ` and its message, or the fixed fallback when the message is missing or empty, and no chart |
| GeminiService.PersonaReply | services/geminiService.ts:260-263 | a persona reply never has a chart and is never empty; a non-empty text is kept, a missing or empty one becomes the fixed text; an error is `错误: ` followed by its message, or `undefined` when it has none |
| GeminiService.GenerateExpertAnalysis | services/geminiService.ts:7-26 | the expert call rejects exactly when no API key is set; otherwise it resolves to the reply for the model's outcome on the expert request |
| GeminiService.SimulatePersonaInteraction | services/geminiService.ts:183-264 | the persona call rejects exactly when no API key is set; otherwise it resolves to the persona reply for the model's outcome on the persona request (history as text only), and never carries a chart |
| GeminiService.LastAssessmentReply | services/geminiService.ts:192 | finds the most recent model message whose chart is tagged `assessment` |
| GeminiService.WeakCategories | services/geminiService.ts:199 | the weak categories are exactly those scored below 6 |
| GeminiService.WeakCategoriesAppend | services/geminiService.ts:199 | the filter commutes with concatenation, so table order is kept |
| GeminiService.RiskTypes | services/geminiService.ts:200 | the risk types, in order |
| GeminiService.ExpertContextOf | services/geminiService.ts:191-205 | there is a context exactly when the last assessment reply has data; for assessment data it quotes the decision, the weak categories and the risk types when there are risks |
| GeminiService.ContextIgnoresLaterReplies | services/geminiService.ts:192 | messages after the last assessment reply do not change the context |
| ChartFence.FindChartFence | services/geminiService.ts:162 | the fence found is a match of the expression, starting at the first occurrence of the tag |
| ChartFence.FenceIsFirstMatch | services/geminiService.ts:162 | every match is at or after the reported one; at the same start the reported one has the longest leading white space, the shortest group and the first closing backticks; with no fence the expression matches nowhere |
| ChartFence.LeadingSpaceLongest | services/geminiService.ts:162 | the leading `\s*` takes all white space after the tag |
| ChartFence.GroupShortest | services/geminiService.ts:162 | the lazy group ends no later than any other match's, and then closes at the same backticks |
| MessageView.PlaceholderAfter | App.tsx:872 | in text with no placeholder before it, the first placeholder is the one written there |
| MessageView.SplitAroundPlaceholder | App.tsx:872 | splitting text with exactly one placeholder gives the two sides |
| MessageView.TextBlock | App.tsx:875 | an empty part is not shown |
| MessageView.ViewBlocks | App.tsx:871-890 | no shown text is empty or holds the placeholder; without a chart only text is shown; a chart is always shown |
| MessageView.ViewAtPlaceholder | App.tsx:872-881 | a text with one placeholder shows the text before it, the chart, then the text after |
| MessageView.ViewWithoutPlaceholder | App.tsx:883-887 | a text without the placeholder is shown whole, with the chart after it |
| MessageView.ViewDropsAfterSecondPlaceholder | App.tsx:872-881 | whatever follows a second placeholder is not shown |
| MessageView.TrimAroundPlaceholder | services/geminiService.ts:169 | trimming a text around the placeholder trims only the two outer sides |
| MessageView.ReplyViewPlacesChart | App.tsx:871-890 | end to end: a reply whose fence holds a chart is shown as the trimmed text before the fence, the chart, then the trimmed text after it |
| MessageView.CopyText | App.tsx:22-25 | the copied text loses exactly one placeholder, and equals the text when there is none |
| MessageView.CopyJoinsSides | App.tsx:24 | copying a reply with a placeholder gives the text on either side, joined |
| MessageView.Escape | App.tsx:623-626 | escaping never shortens the text |
| MessageView.EscapeIsThreePasses | App.tsx:623-626 | the report's three global replacements, in order, escape each character independently |
| MessageView.EscapeAppend | App.tsx:623-626 | escaping distributes over concatenation |
| MessageView.EscapePlain | App.tsx:623-626 | text without `<`, `>` or line breaks is written as it is |
| MessageView.EscapeReflectsPlaceholder | App.tsx:623-632 | escaping never creates a placeholder |
| MessageView.EscapeAroundPlaceholder | App.tsx:623-633 | the placeholder passes through escaping unchanged |
| MessageView.ExportFailsWhereBubbleFails | App.tsx:321-401 | a chart the bubble cannot draw makes the report fail too; a chart whose tag names its data's shape, with radar dimensions a list or a falsy value, never does |
| MessageView.ExportContent | App.tsx:622-637 | without a chart the report content is the escaped text |
| MessageView.ExportAtPlaceholder | App.tsx:629-633 | the chart's HTML goes exactly where the first placeholder was |
| MessageView.ExportAppendsChart | App.tsx:634-636 | with no placeholder the chart's HTML is appended in its own block |
| MessageView.EntryOf | App.tsx:639-646 | the role class and caption say `user`/`User` exactly for user messages |
| MessageView.FindTitle | App.tsx:604 | the title of the first session with the active id, found exactly when there is one |
| MessageView.Export | App.tsx:595-650 | nothing is exported for an empty conversation, or when the HTML of any message's chart cannot be generated; otherwise one entry per message, in order; the title is the session's when non-empty, else the fallback; the mode line follows the selected mode |
| VisualModels.ScoreTone | components/VisualModels.tsx:178-182 | 8 and above green, 5 to 8 amber, below 5 red |
| VisualModels.ScoreToneMonotone | components/VisualModels.tsx:178-182 | a higher score never gets a worse colour |
| VisualModels.CompletenessBarTone | components/VisualModels.tsx:137 | below 50 red, below 80 amber, otherwise green |
| VisualModels.CompletenessBarMonotone | components/VisualModels.tsx:137 | a higher completeness never gets a worse bar colour |
| VisualModels.CompletenessTextTone | components/VisualModels.tsx:131 | below 80 amber, otherwise green |
| VisualModels.CompletenessTonesAgree | components/VisualModels.tsx:131-137 | the bar and the text agree on green, and the bar is red only where the text is amber |
| VisualModels.OverallTone | components/VisualModels.tsx:335-337 | a missing overall score counts as 0; 75 and above green, below 50 red |
| VisualModels.OverallToneMonotone | components/VisualModels.tsx:336 | a higher overall score never gets a worse colour |
| VisualModels.RiskLevelTone | components/VisualModels.tsx:30-39 | `High` red, `Medium` amber, anything else blue |
| VisualModels.ProbabilityTone | components/VisualModels.tsx:42-44 | `High` red, `Medium` amber, anything else grey |
| VisualModels.DecisionTone | components/VisualModels.tsx:107-110 | each decision gets its own colour and any other value stays grey |
| VisualModels.DecisionTonesDistinct | components/VisualModels.tsx:107-110 | the badge tells the three decisions apart |
| VisualModels.Card | components/VisualModels.tsx:214-277 | a flagged quadrant is grey; flagged and without points it shows the notice; otherwise its points, or the "no points" line |
| VisualModels.SwotCards | components/VisualModels.tsx:287-290 | four cards in quadrant order, each flagged from its own field, each listing its own quadrant's points |
| VisualModels.CaptionOf | components/VisualModels.tsx:307 | a missing or empty label becomes `未知维度` |
| VisualModels.ValueOf | components/VisualModels.tsx:308 | a value that is not a number becomes 0 |
| VisualModels.RadarOf | components/VisualModels.tsx:297-308 | a non-list or empty `dimensions` draws nothing; otherwise one caption and one value per dimension, in order |
| VisualModels.RadarKeepsWellFormed | components/VisualModels.tsx:307-308 | a well-formed dimension is drawn exactly as sent |
| VisualModels.RowOf | components/VisualModels.tsx:171-188 | a table row shows the item's category, score and rationale, green exactly from 8 up |
| VisualModels.BadgeOf | components/VisualModels.tsx:52 | an empty likelihood is shown as `?` |
| VisualModels.AssessmentOf | components/VisualModels.tsx:101-208 | the card shows one row per scoring entry in order; the question and risk panels are empty exactly when their lists are missing or empty |
| VisualModels.Render | components/VisualModels.tsx:392-410 | no data or an unknown tag draws nothing; each component is drawn only for its own tag |
| VisualModels.RenderMatchingShape | components/VisualModels.tsx:396-404 | a tag that names its data's shape draws that shape's component; only an empty radar draws nothing |
| VisualModels.SwotOfOtherShape | components/VisualModels.tsx:396-397 | a SWOT tag over other data draws four cards with the "no points" line |
| PersonaConfigurator.AgeFromInput | components/PersonaConfigurator.tsx:45 | `parseInt(text) \|\| 18`: NaN and 0 give 18, any other number is kept, negatives included |
| PersonaConfigurator.Apply | components/PersonaConfigurator.tsx:10-12 | an edit changes exactly the field it names |
| PersonaConfigurator.LastEditWins | components/PersonaConfigurator.tsx:10-12 | editing a field twice keeps only the second value; edits of different fields commute |
| PersonaConfigurator.FormKeepsListed | components/PersonaConfigurator.tsx:24-58 | the default persona and every profile reached through the form keep country and gender among the listed choices |
| PersonaConfigurator.AgeShownReadsBack | components/PersonaConfigurator.tsx:44-45 | the age shown in the box reads back as the same age, except 0, which reads back as 18 |
| PersonaConfigurator.AgeIgnoresTrailingText | components/PersonaConfigurator.tsx:45 | text typed after the digits does not change the age read |
| PersonaConfigurator.TechButtons | components/PersonaConfigurator.tsx:84-96 | three buttons, Low, Medium and High, and exactly the profile's level is highlighted |
| PersonaConfigurator.PressHighlights | components/PersonaConfigurator.tsx:89-94 | pressing a button highlights that button and no other |
| Numerals.DecimalRoundTrip | App.tsx:220 | reading back the decimal text of a number gives the number |
| Numerals.DecimalStringInjective | App.tsx:220 | distinct clock readings give distinct ids |
| Numerals.ParseIntReadsPrinted | components/PersonaConfigurator.tsx:44-45 | `parseInt` reads back any printed integer, after any white space and before any non-digit text |
| Text.Trim | services/geminiService.ts:169 | the trimmed text is a slice of the text with only white space outside it; it is empty exactly for all-white-space text, and otherwise starts and ends with a non-space character |
| Text.TrimIsSlice | services/geminiService.ts:169 | trimming both ends keeps one contiguous slice of the text, and everything outside that slice is white space |
| Text.TrimStartSkips | services/geminiService.ts:169 | trimming white space in front of text that starts with a non-space character leaves exactly that text |
| Text.ReplaceFirst | App.tsx:24 | `replace` with a string pattern substitutes the first occurrence only, literally |
| Text.IndexOf | App.tsx:632 | `indexOf` finds the first occurrence, and finds one exactly when there is one |
| Text.SplitPieces | App.tsx:872 | no piece of a split holds the separator, and there is one piece exactly when the text does not hold it |
| Text.SplitJoin | App.tsx:872 | joining the pieces of a split with the separator gives the text back |

## Left out

- Browser I/O is not modelled: `FileReader`, the storage API, the report download, the clipboard,
  timers and scrolling. File reading is an oracle from a file to its data URL or to a failure.
  Storage is the `stored` field of the state record.
- The model call and `JSON.parse` are oracles passed in as parameters. `JSON.parse` yields an error,
  a non-object, or an object with its `type`, `title` and `data` fields. The system prompts, the
  model names and the request configuration are not modelled.
- `Date.now()` is the parameter `now`, and one handler's readings of it are taken as one value.
- React effects, re-rendering and the interleaving of asynchronous handlers are not modelled.
  The sync and save effects are transitions the caller applies after a change.
- The HTML that `generateChartHtml` writes for the three chart shapes is the parameter `render`;
  only where it throws, and that an unknown tag gives none, are modelled.
- SWOT point lists are lists or missing. A truthy non-list there would also make the report fail,
  but it cannot be represented.
- Radar geometry, icons, CSS classes and layout are not modelled; colours are an enumeration.
- Upload.Lower: lower-cases A-Z only. Every extension in the table is plain lower-case ASCII, and
  no other character lower-cases to one of their letters, so lookups come out the same.
- Numerals.ParseInt: decimal only, with unbounded integers. An age box never holds a `0x` prefix,
  and ages never approach 2^53.
- Strings are sequences of characters, not UTF-16 code units. `slice(0, 20)` on text outside the
  Basic Multilingual Plane counts differently in the browser.
- `String.prototype.replace` is modelled with literal replacement text. Chart HTML containing `$&`
  or `$1` would be expanded by the browser.
- Scores are real numbers. NaN, infinities and the `toFixed` rounding of weights are not modelled.
- A stored value that parses but is not an array is not modelled; storage holds either nothing, an
  unreadable record, or a list of sessions.
- The intake form, the guide modal and the markdown renderer are not modelled.

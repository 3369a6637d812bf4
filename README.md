# McpServer chat-to-task pipeline, in Dafny

This project models the chat endpoint of the McpServer task client. A user
message is classified as task-related or conversational. The matching prompt
is sent to a local language model, and the streamed reply is collected. For a
task-related message, the first JSON object in the reply is extracted and
closed with any missing braces. It is then deserialised into a task
operation. If that raises, it is repaired once and deserialised again. The
operation is dispatched, after its own checks, to the in-memory task store.
Every path that finds no usable operation answers with the model's own text.

The modules follow the source files:

| module | file | what it holds |
|---|---|---|
| `Calendar` | calendar.dfy | the part of `DateTime` the core uses: civil dates, day numbers, `AddDays`, `AddMonths`, `DayOfWeek`, `Today`, ordering |
| `Text` | text.dfy | ASCII `ToLower`, `Trim` over the `char.IsWhiteSpace` set, `Contains`, character counts, filters and subsequences |
| `TaskModels` | task_models.dfy | `TaskOperation`, `TaskItem`, `TaskResponse`, the property initialisers, the JSON member mapping, `StringDateConverter` |
| `TaskStore` | task_service.dfy | `TaskService` as a class whose `tasks` field the methods update in place, each method proved against a function giving its effect |
| `LlmClient` | llm_chat.dfy | `LlmChat`: constructor defaults, the two prompts, the request, the line loop of `SendAsync` |
| `IntentClassifier` | intent_classifier.dfy | `IsTaskRelatedMessage`, with its regular expressions written out as predicates |
| `NaturalDates` | natural_dates.dfy | `ParseNaturalDate` and `GetNextDayOfWeek` |
| `JsonExtraction` | json_extraction.dfy | `ExtractFirstJsonObject` (the loop, proved against a scan function) and brace balancing |
| `JsonRepair` | json_repair.dfy | `FixCommonJsonIssues`: each regular-expression replacement as the left-to-right scan `Regex.Replace` performs, then the control-character filter |
| `Controller` | task_controller.dfy | `TaskController`: `Chat`, `HandleTaskOperation` and the four operation handlers, as methods over the store |

The clock, the GUID generator, the environment variables, the model backend
and the JSON text parser are all parameters. `now` and `newId` are one value
per request. The backend is given as its status code and the lines it sends.
Newtonsoft's text-to-value parse is `parse: string -> Option<Json>`.
Mapping a parsed value onto the records is modelled.

Where the documented intent and the code differ, the model follows the
code:

- Braces are balanced once, before the first decode. The repaired text is
  not balanced again.
- Natural-language dates are resolved only on create. An update's due-date
  text is not resolved, and a decoded task never carries a resolved date, so
  an update never changes a stored due date (`Controller.UpdateKeepsDueDate`).
- `filter` is any string, not an enumeration. Unknown filters, like "all" and
  null, select every task.

## Model

| member | source | states |
|---|---|---|
| Calendar.AddDays | McpServer.Client/Controllers/TaskController.cs:308-309 | `AddDays(n)` gives a valid date exactly `n` days later |
| Calendar.AddDaysWeekday | McpServer.Client/Controllers/TaskController.cs:332-333 | `n` days later the weekday has advanced by `n` modulo 7 |
| Calendar.WeekLater | McpServer.Client/Controllers/TaskController.cs:312 | seven days later it is the same weekday |
| Calendar.AddMonths | McpServer.Client/Controllers/TaskController.cs:310 | `AddMonths(k)` lands `k` months later, on the same day clamped to that month's length |
| Calendar.StartOfDayIsMidnight | McpServer.Client/Controllers/TaskController.cs:307 | the start of a day is no later than any moment of that day, only moments of earlier days come before it, and taking it twice changes nothing |
| Calendar.BeforeIsDayOrder | McpServer.Client/TaskService.cs:62 | `<` on dates is day-number order, then time-of-day order |
| TaskModels.ConverterNormalises | McpServer.Client/TaskModels.cs:66-82 | reading a token with the converter and writing it back keeps null and string tokens, turns a boolean into the string "True" or "False" and an integer into its decimal text |
| TaskModels.ConverterRoundTrip | McpServer.Client/TaskModels.cs:66-82 | writing a due-date text with the converter and reading it back gives the same text |
| TaskModels.ReadTaskItem | McpServer.Client/TaskModels.cs:20-49 | decoding raises exactly when one of "id", "title", "description", "dueDate", "priority" or "status" holds an array, an object or a date; a decoded task has no resolved date or completion time and was created `now` |
| TaskModels.ReadTaskItemDefaults | McpServer.Client/TaskModels.cs:20-49 | a decoded task has no resolved date or completion time; an omitted id, priority, status or due date keeps its initialiser (fresh id, "medium", "pending", null) |
| TaskModels.DueDateIsNotSerialised | McpServer.Client/TaskModels.cs:31-36 | the `[JsonIgnore]` resolved date never reaches JSON; "dueDate" carries the raw text |
| TaskModels.TaskItemRoundTrip | McpServer.Client/TaskModels.cs:20-49 | serialising a task and decoding it recovers every text field; only the resolved date and the timestamps differ |
| TaskModels.TaskMember | McpServer.Client/TaskModels.cs:10-11 | the "task" member gives no task exactly when it is absent or null |
| TaskModels.ReadTaskOperation | McpServer.Client/TaskModels.cs:5-18 | JSON `null` decodes to null and nothing else does; only an object decodes to an operation |
| TaskModels.OperationOptionalMembers | McpServer.Client/TaskModels.cs:5-18 | `task`, `taskId` and `filter` are missing exactly when their member is absent or null; a string "operation" is read as given, and an absent or null one as "" |
| TaskModels.NullableMember | McpServer.Client/TaskModels.cs:13-17 | a nullable string property is null exactly when its member is absent or null |
| TaskStore.FindTask | McpServer.Client/TaskService.cs:87 | `FirstOrDefault` finds the first task with the id, and finds none exactly when no task has it |
| TaskStore.RemoveAt | McpServer.Client/TaskService.cs:143 | removing the element at `i` keeps the others in order and takes exactly that element from the multiset |
| TaskStore.SelectTasks | McpServer.Client/TaskService.cs:58-64 | a read never returns more tasks than the list holds, and returns a task exactly when the list holds it and the filter accepts it |
| TaskStore.SelectTasksIsSublist | McpServer.Client/TaskService.cs:58-64 | a read returns an order-preserving sublist holding exactly the tasks the filter accepts; an unrecognised filter returns the whole list |
| TaskStore.ApplyUpdate | McpServer.Client/TaskService.cs:97-109 | an update keeps id, creation time and due-date text, never changes a completion time already set, and sets one only to `now` on a task it marks "completed" |
| TaskStore.ApplyUpdateKeepsIdentity | McpServer.Client/TaskService.cs:97-109 | an update keeps the task's id, creation time and due-date text |
| TaskStore.CompletionStampedOnce | McpServer.Client/TaskService.cs:102-109 | the completion time is set only when a task without one is completed, is then `now`, and is never overwritten or cleared |
| TaskStore.ApplyUpdateIdempotent | McpServer.Client/TaskService.cs:97-109 | applying the same update a second time, at any later time, changes nothing |
| TaskStore.OmittedMembersOverwrite | McpServer.Client/TaskService.cs:101-104 | update JSON that omits "priority" or "status" still sets them to "medium" and "pending", the initialisers of the update object |
| TaskStore.CreateDueDateGuardNeverHolds | McpServer.Client/TaskService.cs:30-33 | the guard before the natural-date parse in `CreateTask` can never hold |
| TaskStore.CreateEffect | McpServer.Client/TaskService.cs:35-42 | create appends the task unchanged at the end and answers with it |
| TaskStore.ReadEffect | McpServer.Client/TaskService.cs:58-71 | read leaves the list alone and answers with the selected tasks, in order, and their count |
| TaskStore.UpdateEffect | McpServer.Client/TaskService.cs:87-117 | an unknown id fails with the list unchanged; otherwise only the first task with the id changes, and the answer holds the updated task |
| TaskStore.DeleteEffect | McpServer.Client/TaskService.cs:133-149 | an unknown id fails with the list unchanged; otherwise exactly the first task with the id is removed and the rest keep their order |
| TaskStore.TaskService.constructor | McpServer.Client/TaskService.cs:10-23 | the store starts with the loaded list |
| TaskStore.TaskService.CreateTask | McpServer.Client/TaskService.cs:25-52 | the new list and answer are those of `CreateEffect` |
| TaskStore.TaskService.ReadTasks | McpServer.Client/TaskService.cs:54-81 | the answer is that of `ReadEffect`, and the list is not modified |
| TaskStore.TaskService.UpdateTask | McpServer.Client/TaskService.cs:83-127 | the new list and answer are those of `UpdateEffect` |
| TaskStore.TaskService.DeleteTask | McpServer.Client/TaskService.cs:129-159 | the new list and answer are those of `DeleteEffect` |
| LlmClient.NewLlmChat | McpServer.LLM/LlmChat.cs:12-17 | a given model name and base URL are kept |
| LlmClient.DefaultConfiguration | McpServer.LLM/LlmChat.cs:12-17 | with no arguments the client uses "llama2:7b" at http://localhost:11434 |
| LlmClient.BuildPrompt | McpServer.LLM/LlmChat.cs:21-65 | the prompt is exactly as long as the chosen template plus the message |
| LlmClient.MessageIsVerbatim | McpServer.LLM/LlmChat.cs:21-65 | the prompt is the mode's template head, then the user message unchanged, then the template tail |
| LlmClient.PromptIsInjective | McpServer.LLM/LlmChat.cs:21-65 | different messages give different prompts in the same mode |
| LlmClient.Step | McpServer.LLM/LlmChat.cs:86-107 | an empty line yields nothing, and a yielded fragment is never empty |
| LlmClient.CollectAppend | McpServer.LLM/LlmChat.cs:83-109 | the stream over two runs of lines is the first run's stream followed by the second's, unless the first throws |
| LlmClient.SkippedLineIsInvisible | McpServer.LLM/LlmChat.cs:86-96 | an empty line, an unparseable line, or a record without a non-empty "response" string changes nothing downstream |
| LlmClient.CollectIsYields | McpServer.LLM/LlmChat.cs:83-109 | the stream completes exactly when no line throws, and then yields each non-empty "response" string in line order |
| LlmClient.FaultIsFinal | McpServer.LLM/LlmChat.cs:83-109 | once a line throws, no later line affects the outcome |
| LlmClient.ReadFragments | McpServer.LLM/LlmChat.cs:83-109 | the loop produces exactly the stream `Collect` describes |
| LlmClient.SendAsync | McpServer.LLM/LlmChat.cs:19-110 | the request goes to `{baseUrl}/api/generate` with the model, the built prompt and streaming on; a non-2xx status ends the stream before any fragment |
| IntentClassifier.IsTaskRelatedMessage | McpServer.Client/Controllers/TaskController.cs:69-113 | a task-related message holds no conversational phrase, and a message with a task keyword and no conversational phrase is task-related |
| IntentClassifier.ConversationalPhraseWins | McpServer.Client/Controllers/TaskController.cs:69-86 | a message with a conversational phrase is not task-related, and stays so whatever is appended to it, task keywords included |
| IntentClassifier.KeywordSuffices | McpServer.Client/Controllers/TaskController.cs:105-112 | without a conversational phrase, any task keyword makes the message task-related |
| IntentClassifier.VerbPhraseHasNoun | McpServer.Client/Controllers/TaskController.cs:91-95 | a verb pattern match puts its noun in the text |
| IntentClassifier.PatternsImplyKeywords | McpServer.Client/Controllers/TaskController.cs:89-110 | the five verb patterns and the planning pattern each imply a keyword occurrence |
| IntentClassifier.TodoSpellings | McpServer.Client/Controllers/TaskController.cs:97 | the to-do pattern is the keyword "todo" or one of the spelled-out forms "to-do" and "to do" |
| IntentClassifier.ClassifierReduced | McpServer.Client/Controllers/TaskController.cs:69-113 | the classifier is equivalent to: no conversational phrase, and the level pattern, a spelled-out to-do, or a keyword |
| IntentClassifier.DeleteThisTaskIsConversational | McpServer.Client/Controllers/TaskController.cs:74-86 | "delete this task" is not task-related, because "this" holds "hi" |
| IntentClassifier.PhrasesHoldMarker | McpServer.Client/Controllers/TaskController.cs:74-81 | every conversational phrase holds one of "h", "g", "n", "e" or "?" |
| IntentClassifier.NoMarkerNoPhrase | McpServer.Client/Controllers/TaskController.cs:74-86 | a text without those characters holds no conversational phrase |
| IntentClassifier.AddTaskToBuyMilkIsTaskRelated | McpServer.Client/Controllers/TaskController.cs:69-113 | "add a task to buy milk" is task-related |
| NaturalDates.WeekdayPhrases | McpServer.Client/Controllers/TaskController.cs:311-324 | for each of the seven day names, "this <day>" and "next <day>" are arms of the switch and name that day |
| NaturalDates.WeekdayPhraseNamesDay | McpServer.Client/Controllers/TaskController.cs:311-324 | every weekday arm of the switch is spelled "this " or "next " followed by the name of the day it targets |
| NaturalDates.PhraseOffsetRecognises | McpServer.Client/Controllers/TaskController.cs:305-326 | exactly the eighteen phrases of the switch are recognised |
| NaturalDates.DaysUntilTarget | McpServer.Client/Controllers/TaskController.cs:332 | the distance to the target weekday is 0 to 6 and reaches it |
| NaturalDates.DaysUntilTargetIsLeast | McpServer.Client/Controllers/TaskController.cs:332 | no shorter distance reaches the target weekday |
| NaturalDates.GetNextDayOfWeek | McpServer.Client/Controllers/TaskController.cs:329-334 | the result falls on the target weekday, 0 to 6 days from today |
| NaturalDates.NextDayOfWeekIsNearest | McpServer.Client/Controllers/TaskController.cs:329-334 | no day from today up to the result falls on the target weekday, so the result is the nearest one |
| NaturalDates.ParseNaturalDate | McpServer.Client/Controllers/TaskController.cs:298-327 | null and "" give null; any date given is valid and at midnight |
| NaturalDates.ParseNaturalDateDefined | McpServer.Client/Controllers/TaskController.cs:298-327 | a date is produced exactly when the lower-cased, trimmed text is one of the phrases |
| NaturalDates.ParsesAsPhrase | McpServer.Client/Controllers/TaskController.cs:303-326 | a phrase in normal form resolves as its table entry says |
| NaturalDates.TodayParses | McpServer.Client/Controllers/TaskController.cs:307 | "today" is today at midnight |
| NaturalDates.TomorrowParses | McpServer.Client/Controllers/TaskController.cs:308 | "tomorrow" is one day ahead |
| NaturalDates.NextWeekParses | McpServer.Client/Controllers/TaskController.cs:309 | "next week" is seven days ahead |
| NaturalDates.NextMonthParses | McpServer.Client/Controllers/TaskController.cs:310 | "next month" is the same day of the following month, clamped to its length |
| NaturalDates.ThisWeekdayPhrase | McpServer.Client/Controllers/TaskController.cs:311-323 | for every day name, the text "this <day>" parses to midnight of a date on that weekday, 0 to 6 days after today |
| NaturalDates.NextWeekdayPhrase | McpServer.Client/Controllers/TaskController.cs:312-324 | for every day name, the text "next <day>" parses to the date of "this <day>" plus exactly seven days: the same weekday, 7 to 13 days after today |
| NaturalDates.OnAWednesday | McpServer.Client/Controllers/TaskController.cs:311-318 | on a Wednesday, the text "this friday" parses to 2 days ahead, "next friday" to 9, and "this wednesday" to today at midnight |
| JsonExtraction.ScanEnd | McpServer.Client/Controllers/TaskController.cs:345-362 | the scan stops right after the first character that closes the object, or at the end of the text |
| JsonExtraction.FirstJsonObject | McpServer.Client/Controllers/TaskController.cs:336-365 | none exactly when the text has no `{`; otherwise a non-empty stretch of the text that starts at its first `{` |
| JsonExtraction.ExtractFirstJsonObject | McpServer.Client/Controllers/TaskController.cs:336-365 | the loop returns exactly what the scan describes |
| JsonExtraction.ScanStaysOpen | McpServer.Client/Controllers/TaskController.cs:345-362 | for any reply, from the first `{` the string-aware depth never goes negative, stays at least one until the scan stops, and reaches zero only on a `}` outside a string |
| JsonExtraction.ExtractionStaysOpen | McpServer.Client/Controllers/TaskController.cs:345-362 | the extract is the stretch of the reply from its first `{`; every proper prefix of it leaves the depth at one or more, and an extract that closes ends in `}` |
| JsonExtraction.QuoteFreeExtraction | McpServer.Client/Controllers/TaskController.cs:345-362 | the quote-free case in plain brace counts: every proper prefix of the extract has more `{` than `}`, and a balanced extract ends with its closing `}` |
| JsonExtraction.BalanceBraces | McpServer.Client/Controllers/TaskController.cs:133-137 | only `}` are appended, and an unbalanced text is brought to balance |
| JsonExtraction.BalanceBracesIdempotent | McpServer.Client/Controllers/TaskController.cs:133-137 | balancing twice is the same as balancing once |
| JsonExtraction.QuoteFreeBalanced | McpServer.Client/Controllers/TaskController.cs:133-137 | for a quote-free reply the balanced extract has as many `}` as `{` |
| JsonExtraction.SurroundingTextDropped | McpServer.Client/Controllers/TaskController.cs:338-361 | from `x{"a":1}y` the extract is `{"a":1}` |
| JsonExtraction.EscapedBackslashHidesQuote | McpServer.Client/Controllers/TaskController.cs:349 | the escape test looks one character back, so an escaped backslash hides the quote after it and the scan runs past the object |
| JsonRepair.StripTrailingCommasOnlyDeletesCommas | McpServer.Client/Controllers/TaskController.cs:373 | the trailing-comma pass only deletes characters, and only commas |
| JsonRepair.NoTrailingCommaUnchanged | McpServer.Client/Controllers/TaskController.cs:373 | text without a trailing comma is left alone |
| JsonRepair.TrailingCommaExample | McpServer.Client/Controllers/TaskController.cs:373 | `[1, ]` becomes `[1 ]` |
| JsonRepair.EscapeInnerQuotesOnlyInsertsBackslashes | McpServer.Client/Controllers/TaskController.cs:376 | the quote pass only inserts characters, and only backslashes |
| JsonRepair.NoQuoteNothingEscaped | McpServer.Client/Controllers/TaskController.cs:376 | text without a quote is left alone |
| JsonRepair.WellFormedNameEscaped | McpServer.Client/Controllers/TaskController.cs:376 | the quote pass also rewrites well-formed JSON: `{"a":"b"}` gets a backslash before the name's closing quote |
| JsonRepair.QuoteNamesKeepsSkeleton | McpServer.Client/Controllers/TaskController.cs:379 | quoting bare names adds or drops only whitespace and quotes |
| JsonRepair.NoColonNoNameQuoted | McpServer.Client/Controllers/TaskController.cs:379 | text without a colon is left alone |
| JsonRepair.BareNameExample | McpServer.Client/Controllers/TaskController.cs:379 | `{a:1}` becomes `{ "a":1}` |
| JsonRepair.QuoteValuesKeepsSkeleton | McpServer.Client/Controllers/TaskController.cs:382 | quoting bare values adds or drops only whitespace and quotes |
| JsonRepair.NoColonNoValueQuoted | McpServer.Client/Controllers/TaskController.cs:382 | text without a colon is left alone |
| JsonRepair.BareValueExample | McpServer.Client/Controllers/TaskController.cs:382 | `:yes}` becomes `: "yes"}` |
| JsonRepair.BareWordQuoted | McpServer.Client/Controllers/TaskController.cs:382 | a colon, a word that starts with a letter and runs on in letters, digits and white space, then `,` or `}`: the word is wrapped in quotes and a space follows the colon |
| JsonRepair.LiteralValuesQuoted | McpServer.Client/Controllers/TaskController.cs:382 | the value rewrite also quotes the JSON literals `true`, `false` and `null`, turning them into strings |
| JsonRepair.StripControlProperties | McpServer.Client/Controllers/TaskController.cs:385 | the filter leaves no control character but newline, return and tab, loses nothing else, keeps order, and is idempotent |
| JsonRepair.FixCommonJsonIssues | McpServer.Client/Controllers/TaskController.cs:366-388 | the repaired text holds no control character but newline, return and tab, and a text without commas, quotes, colons or control characters comes back unchanged |
| Controller.Candidate | McpServer.Client/Controllers/TaskController.cs:120-137 | there is a first-attempt text exactly when the reply has a `{`; it starts with `{` and has no unclosed brace |
| Controller.DecodeReply | McpServer.Client/Controllers/TaskController.cs:119-171 | the decoding steps give exactly the two-attempt decode |
| Controller.Decode | McpServer.Client/Controllers/TaskController.cs:119-171 | the reply has no object exactly when it holds no `{`, and a parse failure means both the balanced candidate and its repair raised |
| Controller.DecodeReadsOnlyCandidates | McpServer.Client/Controllers/TaskController.cs:141-171 | the parser is consulted on the candidate, and on its repair only when the first attempt raised |
| Controller.DecodeOutcomes | McpServer.Client/Controllers/TaskController.cs:119-182 | no object exactly when the reply has no `{`; a parse failure exactly when both attempts raise; a first attempt that does not raise decides alone |
| Controller.WithResolvedDueDate | McpServer.Client/Controllers/TaskController.cs:259-263 | only the resolved date of the task changes |
| Controller.CreatedDueDate | McpServer.Client/Controllers/TaskController.cs:259-263 | a created task's resolved date is what the phrase table gives for its due-date text, and exists exactly for a recognised phrase |
| Controller.Perform | McpServer.Client/Controllers/TaskController.cs:184-191 | a failed operation leaves the list alone; a create adds one task, a delete removes one, the others keep the length |
| Controller.Refusals | McpServer.Client/Controllers/TaskController.cs:184-296 | an unknown operation, a create without a task, and an update or delete without an id or data each fail with their message and leave the list alone |
| Controller.UpdateKeepsDueDate | McpServer.Client/Controllers/TaskController.cs:273-286 | an update decoded from JSON never changes any stored due date |
| Controller.RespondDecoded | McpServer.Client/Controllers/TaskController.cs:184-193 | a decoded operation is performed and its store answer returned |
| Controller.Respond | McpServer.Client/Controllers/TaskController.cs:115-194 | a chat answer keeps the list and carries the trimmed reply; a reply without `{` gets the no-JSON fallback; a failed store answer keeps the list |
| Controller.RespondFallbacks | McpServer.Client/Controllers/TaskController.cs:115-194 | the store is used exactly when an operation decoded; every other outcome is a successful chat answer with the trimmed reply and the list untouched |
| Controller.ChatOutcome | McpServer.Client/Controllers/TaskController.cs:22-67 | a failing backend gives the trouble answer with the list kept; a message that is not task-related keeps the list and gets a chat answer; the store answers only a task-related message with a successful backend |
| Controller.ConversationKeepsStore | McpServer.Client/Controllers/TaskController.cs:22-67 | a message that is not task-related, or a failing backend, never reaches the store and gets a successful chat answer |
| Controller.NoObjectIsConversation | McpServer.Client/Controllers/TaskController.cs:120-130 | a task-related message whose reply has no `{` is answered with the joined fragments |
| Controller.ThanksByeIsConversation | McpServer.Client/Controllers/TaskController.cs:74-86 | "thanks, bye" never changes the store |
| Controller.ReadAllListsEverything | McpServer.Client/Controllers/TaskController.cs:268-271 | a read with filter "all" lists every task in order and changes nothing |
| Controller.UpdateWithoutIdRefused | McpServer.Client/Controllers/TaskController.cs:273-278 | update JSON that omits "taskId" or gives null is refused for the missing id, whatever its "task" says |
| Controller.TaskController.constructor | McpServer.Client/Controllers/TaskController.cs:16-20 | a fresh store over the loaded list and a client with the configured model and URL |
| Controller.TaskController.HandleCreateTask | McpServer.Client/Controllers/TaskController.cs:252-266 | requires a task, resolves its due-date text, then stores it |
| Controller.TaskController.HandleReadTasks | McpServer.Client/Controllers/TaskController.cs:268-271 | answers the store's read with the operation's filter |
| Controller.TaskController.HandleUpdateTask | McpServer.Client/Controllers/TaskController.cs:273-286 | requires an id, then update data, then updates the store |
| Controller.TaskController.HandleDeleteTask | McpServer.Client/Controllers/TaskController.cs:288-296 | requires an id, then deletes from the store |
| Controller.TaskController.Dispatch | McpServer.Client/Controllers/TaskController.cs:184-191 | the operation switch has exactly the effect `Perform` gives |
| Controller.TaskController.HandleTaskOperation | McpServer.Client/Controllers/TaskController.cs:115-194 | the new list and answer are those of `Respond`: decode, then dispatch or fall back |
| Controller.TaskController.Chat | McpServer.Client/Controllers/TaskController.cs:22-67 | the prompt follows the classifier; the new list and answer are those of `ChatOutcome` |

## Left out

- Console logging, the ASP.NET routing and `Ok(...)` wrapping: outside the
  pipeline's logic.
- The four REST endpoints (TaskController.cs:196-250). They forward to the
  store, and their status-500 path only catches exceptions.
- `LoadTasks`, `SaveTasks` and the tasks file: file I/O. The store's
  constructor takes the loaded list. Each request builds a new controller and
  store, so each request starts from the file. The model does not follow the
  list across requests.
- The store's `catch` blocks ("Error creating task: …" and the others). In an
  in-memory store nothing in their `try` bodies can raise: saving catches its
  own errors.
- `TaskService.ParseNaturalDate` (TaskService.cs:161-176): only the guard
  proved never to hold calls it (`TaskStore.CreateDueDateGuardNeverHolds`).
- Newtonsoft's text parser: a parameter. Its case-insensitive member fallback
  and float tokens are not modelled. The "createdAt" and "completedAt"
  members of a decoded task are not read; a decoded task starts with `now`
  and no completion time.
- TaskModels.DueDateMember: a date token is treated as rejected instead of
  being rendered in the culture's date format, because culture formatting is
  not modelled.
- TaskModels.StringMember: a date-shaped string in a text property, which
  Newtonsoft's `ReadAsString` keeps as its original text, is treated as
  rejected, because the model's date value does not keep the original text.
- `ToLower` and `\w` (so also `\b`) on ASCII only: Unicode case mapping and
  Unicode letters and digits are not modelled. `Trim`, `char.IsWhiteSpace` and
  `\s` use the full Unicode white-space set.
- `DateTime` overflow past year 9999: years are unbounded. `DateTime.Kind`
  and time zones are not modelled either.
- Aliasing of task objects. In the program a response holds the same
  `TaskItem` objects as the store, and an unrecognised filter returns the
  store's own list. The model returns values.
- `HttpClient`: the POST, the body serialisation and `Dispose`. The request
  is the `GenerateRequest` record. The response status and lines are inputs.
- A null chat message, a connection failure or a timeout: each raises and
  reaches the outer `catch`. The model covers only a non-success status
  reaching it.
- The environment variables of `Configuration` are `Option` parameters.
  The rest of `Configuration.cs`, `Program.cs`, `McpRoot.cs`, the UI client
  and the calculator server are not part of this model.
- Concurrency: requests are modelled one at a time.
- The unescaped-quote rewrite matches lazily. Its scan stops at the first
  quote or backslash, which is the only place a lazy match can end, because
  the class excludes both. So the model gets the same matches without the
  regular-expression engine.
- No whole-pipeline repair example (a reply with bare names, bare values and
  a trailing comma at once) is proved end to end. Each rewrite
  has its own example and its own invariant instead.

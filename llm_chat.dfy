/**
 * The model client (`LlmChat`): its configuration defaults, the choice between
 * the task-extraction and the conversational prompt, the request body, and the
 * loop that turns the backend's newline-delimited JSON records into response
 * fragments. The network is a parameter: the response status and the lines read
 * before the stream ends are inputs, and so is the per-line JSON parse.
 */
module LlmClient {
  import opened Wrappers
  import opened Text

  /** The readonly configuration of a client. */
  datatype LlmChat = LlmChat(modelName: string, baseUrl: string)

  /** `new LlmChat(modelName, baseUrl)`; None for `modelName` is an omitted argument, None for
      `baseUrl` an omitted or null one. */
  function NewLlmChat(modelName: Option<string>, baseUrl: Option<string>): (c: LlmChat)
    ensures modelName.Some? ==> c.modelName == modelName.value
    ensures baseUrl.Some? ==> c.baseUrl == baseUrl.value
  {
    LlmChat(modelName.GetOr("llama2:7b"), baseUrl.GetOr("http://localhost:11434"))
  }

  /** With no arguments the client talks to the local default model. */
  lemma DefaultConfiguration()
    ensures NewLlmChat(None, None) == LlmChat("llama2:7b", "http://localhost:11434")
  {
  }

  // The templates are verbatim literals: a doubled quote stands for one quote, and each line
  // break in the literal is a "\n" of the prompt.
  const TaskPromptHead: string := @"You are a task management assistant. When users ask about tasks, respond with ONLY valid JSON in this exact format:

{
  ""operation"": ""[create|read|update|delete]"",
  ""task"": {
    ""title"": ""[task title]"",
    ""description"": ""[optional description or null]"",
    ""dueDate"": ""[date string or null]"",
    ""priority"": ""[low|medium|high]"",
    ""status"": ""[pending|in-progress|completed]""
  },
  ""taskId"": ""[task id for update/delete operations or null]"",
  ""filter"": ""[all|pending|completed|overdue for read operations or null]""
}

IMPORTANT RULES:
1. Respond with ONLY the JSON object, no other text
2. Use double quotes for all strings
3. Use null for optional fields that are not provided
4. Do not include trailing commas
5. Ensure all strings are properly quoted

Examples:
- ""Add a task to buy groceries tomorrow"" → { ""operation"": ""create"", ""task"": { ""title"": ""Buy groceries"", ""dueDate"": ""tomorrow"", ""priority"": ""medium"", ""status"": ""pending"", ""description"": null }, ""taskId"": null, ""filter"": null }
- ""Show me all tasks"" → { ""operation"": ""read"", ""task"": null, ""taskId"": null, ""filter"": ""all"" }
- ""Mark task 123 as completed"" → { ""operation"": ""update"", ""task"": { ""title"": null, ""description"": null, ""dueDate"": null, ""priority"": null, ""status"": ""completed"" }, ""taskId"": ""123"", ""filter"": null }
- ""Delete task 456"" → { ""operation"": ""delete"", ""task"": null, ""taskId"": ""456"", ""filter"": null }

User request: "

  const TaskPromptTail: string := @"

Respond with ONLY the JSON:"

  const ChatPromptHead: string := @"You are a helpful AI assistant. Respond naturally and conversationally to the user's message.

User: "

  const ChatPromptTail: string := @"
Assistant:"

  function PromptHead(useTaskMode: bool): string {
    if useTaskMode then TaskPromptHead else ChatPromptHead
  }

  function PromptTail(useTaskMode: bool): string {
    if useTaskMode then TaskPromptTail else ChatPromptTail
  }

  /** The prompt `SendAsync` sends: the chosen template around the verbatim user message. */
  function BuildPrompt(userMessage: string, useTaskMode: bool): (p: string)
    ensures |p| == |PromptHead(useTaskMode)| + |userMessage| + |PromptTail(useTaskMode)|
  {
    PromptHead(useTaskMode) + userMessage + PromptTail(useTaskMode)
  }

  /** The user message is inserted unchanged: it is exactly the text between the template parts. */
  lemma MessageIsVerbatim(userMessage: string, useTaskMode: bool)
    ensures var p, h, t := BuildPrompt(userMessage, useTaskMode), PromptHead(useTaskMode), PromptTail(useTaskMode);
      && p[..|h|] == h && p[|p| - |t|..] == t
      && p[|h|..|p| - |t|] == userMessage
  {
    Sandwich(PromptHead(useTaskMode), userMessage, PromptTail(useTaskMode));
  }

  lemma Sandwich(h: string, m: string, t: string)
    ensures var p := h + m + t;
      p[..|h|] == h && p[|p| - |t|..] == t && p[|h|..|p| - |t|] == m
  {
    var p := h + m + t;
    assert p[..|h|] == h;
    assert p[|p| - |t|..] == t;
    assert p[|h|..|p| - |t|] == m;
  }

  /** So different messages give different prompts in the same mode. */
  lemma PromptIsInjective(m1: string, m2: string, useTaskMode: bool)
    requires BuildPrompt(m1, useTaskMode) == BuildPrompt(m2, useTaskMode)
    ensures m1 == m2
  {
    MessageIsVerbatim(m1, useTaskMode);
    MessageIsVerbatim(m2, useTaskMode);
  }

  /** The body posted to `{baseUrl}/api/generate`. */
  datatype GenerateRequest = GenerateRequest(url: string, model: string, prompt: string, stream: bool)

  /** 2xx, what `EnsureSuccessStatusCode` accepts. */
  predicate IsSuccessStatus(status: int) {
    200 <= status <= 299
  }

  /** The value of a record's "response" member, as `TryGetProperty` and `GetString` see it. */
  datatype ResponseMember = NoResponse | ResponseString(s: string) | ResponseNull | ResponseOther

  /** `JsonDocument.Parse(line)`: a parse error, a root that is not an object, or an object. */
  datatype LineParse = Malformed | NotAnObject | Record(response: ResponseMember)

  /** What one non-null line read contributes to the stream. `TryGetProperty` on a non-object root
      and `GetString` on a value that is neither a string nor null throw, ending the stream. */
  datatype LineStep = Skip | Yield(fragment: string) | Throw

  function Step(line: string, parse: string -> LineParse): (s: LineStep)
    ensures s.Yield? ==> s.fragment != ""
    ensures line == "" ==> s == Skip
  {
    if line == "" then Skip
    else match parse(line)
      case Malformed => Skip
      case NotAnObject => Throw
      case Record(NoResponse) => Skip
      case Record(ResponseNull) => Skip
      case Record(ResponseOther) => Throw
      case Record(ResponseString(s)) => if s == "" then Skip else Yield(s)
  }

  /** The fragments a consumer received, and whether the stream ended normally or by an exception. */
  datatype StreamOutcome = Completed(fragments: seq<string>) | Faulted(fragments: seq<string>)

  /** The stream over the lines read before `ReadLineAsync` returned null, in order. */
  function Collect(lines: seq<string>, parse: string -> LineParse): StreamOutcome {
    if lines == [] then Completed([])
    else match Collect(lines[..|lines| - 1], parse)
      case Faulted(f) => Faulted(f)
      case Completed(f) =>
        match Step(lines[|lines| - 1], parse)
        case Skip => Completed(f)
        case Yield(s) => Completed(f + [s])
        case Throw => Faulted(f)
  }

  /** The outcome of reading `a` and then, if it ended normally, `b`. */
  function Then(x: StreamOutcome, y: StreamOutcome): StreamOutcome {
    match x
    case Faulted(f) => Faulted(f)
    case Completed(f) =>
      match y
      case Completed(g) => Completed(f + g)
      case Faulted(g) => Faulted(f + g)
  }

  /** Fragments come in line order: the stream over two runs of lines is the first run's stream
      followed by the second's, and an exception ends it. */
  lemma {:induction false} CollectAppend(a: seq<string>, b: seq<string>, parse: string -> LineParse)
    ensures Collect(a + b, parse) == Then(Collect(a, parse), Collect(b, parse))
  {
    if b == [] {
      assert a + b == a;
      match Collect(a, parse)
      case Faulted(f) =>
      case Completed(f) => assert f + [] == f;
    } else {
      var b' := b[..|b| - 1];
      assert (a + b)[..|a + b| - 1] == a + b';
      assert (a + b)[|a + b| - 1] == b[|b| - 1];
      CollectAppend(a, b', parse);
      match Collect(a, parse)
      case Faulted(f) =>
      case Completed(f) =>
        match Collect(b', parse)
        case Faulted(g) =>
        case Completed(g) =>
          assert f + (g + [b[|b| - 1]]) == (f + g) + [b[|b| - 1]];
    }
  }

  /** An empty line, an unparseable line, or a record without a non-empty "response" string yields
      nothing and does not end the stream. */
  lemma SkippedLineIsInvisible(a: seq<string>, line: string, b: seq<string>, parse: string -> LineParse)
    requires Step(line, parse) == Skip
    ensures Collect(a + [line] + b, parse) == Collect(a + b, parse)
  {
    CollectAppend(a + [line], b, parse);
    CollectAppend(a, [line], parse);
    CollectAppend(a, b, parse);
    assert [line][..0] == [];
    match Collect(a, parse)
    case Faulted(f) =>
    case Completed(f) => assert f + [] == f;
  }

  /** The fragments of lines none of which throws: one per line that yields, in order. */
  function Yields(lines: seq<string>, parse: string -> LineParse): seq<string> {
    if lines == [] then []
    else (match Step(lines[0], parse) case Yield(s) => [s] case _ => []) + Yields(lines[1..], parse)
  }

  /** A stream completes exactly when no line throws, and then its fragments are exactly the
      non-empty "response" strings of the records, in line order. */
  lemma {:induction false} CollectIsYields(lines: seq<string>, parse: string -> LineParse)
    ensures Collect(lines, parse).Completed? <==> forall i :: 0 <= i < |lines| ==> Step(lines[i], parse) != Throw
    ensures Collect(lines, parse).Completed? ==> Collect(lines, parse).fragments == Yields(lines, parse)
  {
    if lines != [] {
      var rest := lines[1..];
      assert lines == [lines[0]] + rest;
      CollectIsYields(rest, parse);
      CollectAppend([lines[0]], rest, parse);
      assert [lines[0]][..0] == [];
      assert forall i :: 1 <= i < |lines| ==> lines[i] == rest[i - 1];
      match Step(lines[0], parse)
      case Skip =>
      case Throw =>
      case Yield(s) =>
    }
  }

  /** The lines of a stream that has ended are never read again: an exception after a prefix is the
      outcome of the whole stream. */
  lemma {:induction false} FaultIsFinal(lines: seq<string>, k: nat, parse: string -> LineParse)
    requires k <= |lines|
    requires Collect(lines[..k], parse).Faulted?
    ensures Collect(lines, parse) == Collect(lines[..k], parse)
  {
    assert lines == lines[..k] + lines[k..];
    CollectAppend(lines[..k], lines[k..], parse);
  }

  /** The `while ((line = await reader.ReadLineAsync()) != null)` loop. */
  method ReadFragments(lines: seq<string>, parse: string -> LineParse) returns (outcome: StreamOutcome)
    ensures outcome == Collect(lines, parse)
  {
    var fragments: seq<string> := [];
    var i := 0;
    while i < |lines|
      invariant 0 <= i <= |lines|
      invariant Collect(lines[..i], parse) == Completed(fragments)
    {
      var line := lines[i];
      assert lines[..i + 1][..i] == lines[..i];
      if line != "" {
        var parsed := parse(line);
        if parsed.Malformed? {
          i := i + 1;
          continue;
        }
        if parsed.NotAnObject? || parsed.response.ResponseOther? {
          FaultIsFinal(lines, i + 1, parse);
          return Faulted(fragments);
        }
        if parsed.response.ResponseString? && parsed.response.s != "" {
          fragments := fragments + [parsed.response.s];
        }
      }
      i := i + 1;
    }
    assert lines[..i] == lines;
    outcome := Completed(fragments);
  }

  /** `SendAsync`: builds the request, fails before reading anything on a non-success status, and
      otherwise streams the fragments. */
  method SendAsync(client: LlmChat, userMessage: string, useTaskMode: bool,
                   status: int, lines: seq<string>, parse: string -> LineParse)
    returns (request: GenerateRequest, outcome: StreamOutcome)
    ensures request == GenerateRequest(client.baseUrl + "/api/generate", client.modelName,
                                       BuildPrompt(userMessage, useTaskMode), true)
    ensures !IsSuccessStatus(status) ==> outcome == Faulted([])
    ensures IsSuccessStatus(status) ==> outcome == Collect(lines, parse)
  {
    var prompt;
    if useTaskMode {
      prompt := TaskPromptHead + userMessage + TaskPromptTail;
    } else {
      prompt := ChatPromptHead + userMessage + ChatPromptTail;
    }
    request := GenerateRequest(client.baseUrl + "/api/generate", client.modelName, prompt, true);
    if !IsSuccessStatus(status) {
      return request, Faulted([]);
    }
    outcome := ReadFragments(lines, parse);
  }
}

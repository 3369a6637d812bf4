/**
 * The chat endpoint (`TaskController.Chat`) and the task pipeline behind it: the
 * classifier picks the prompt, the model's fragments are joined, and for a
 * task-related message the reply is searched for a JSON object, closed, decoded
 * (once more after the repair pass if the first decode fails) and dispatched to
 * the store after each operation's own checks. Every path that finds no usable
 * operation answers with the model's own text and leaves the store alone.
 *
 * The JSON text parse of the serializer is the parameter `parse` (None for text
 * it rejects); the record mapping of the parsed value is `ReadTaskOperation`.
 * `DateTime.Now`, `DateTime.Today` and `Guid.NewGuid` are the one `now` and
 * `newId` of the request; the model backend is its status code and the lines it
 * sends.
 */
module Controller {
  import opened Wrappers
  import opened Text
  import opened Calendar
  import opened TaskModels
  import opened TaskStore
  import LlmClient
  import opened IntentClassifier
  import opened NaturalDates
  import opened JsonExtraction
  import opened JsonRepair

  /** `ChatResponse`. */
  datatype ChatResponse = ChatResponse(success: bool, response: Option<string>, message: Option<string>)

  /** The body of the `Ok(...)` the endpoint returns: a chat answer or a store answer. */
  datatype Reply = Chatted(chat: ChatResponse) | Handled(result: TaskResponse)

  const NoJsonMessage: string := "LLM response (no task operation detected)"
  const ParseFailedMessage: string := "LLM response (JSON parsing failed)"
  const NoOperationMessage: string := "LLM response (no task operation)"
  const ConversationMessage: string := "Conversation response"
  const TroubleText: string := "I'm having trouble processing that right now. Could you try rephrasing your request?"
  const TroubleMessage: string := "Error occurred"

  /** A successful chat answer carrying the model's text, trimmed. */
  function Fallback(fullResponse: string, message: string): ChatResponse {
    ChatResponse(true, Some(Trim(fullResponse)), Some(message))
  }

  /** The answer of the outer `catch`. */
  const Trouble: ChatResponse := ChatResponse(true, Some(TroubleText), Some(TroubleMessage))

  function Failure(message: string): TaskResponse {
    TaskResponse(false, Some(message), None, None)
  }

  // ---------------------------------------------------------------------------
  // Decoding the model's reply.

  /** `JsonConvert.DeserializeObject<TaskOperation>(json)`: an exception, null or an operation. */
  function Deserialize(json: string, parse: string -> Option<Json>, newId: string, now: DateTime): Parsed {
    match parse(json)
    case None => Failed
    case Some(v) => ReadTaskOperation(v, newId, now)
  }

  /** The text of the first attempt: the first object of the reply, closed with the braces it lacks. */
  function Candidate(fullResponse: string): (r: Option<string>)
    ensures r.None? <==> '{' !in fullResponse
    ensures r.Some? ==> r.value != [] && r.value[0] == '{' && Depth(r.value) <= 0
  {
    match FirstJsonObject(fullResponse)
    case None => None
    case Some(json) => Some(BalanceBraces(json))
  }

  /** How decoding ended: no object in the reply, both attempts raised, the JSON was `null`, or an
      operation. */
  datatype Decoded = NoJson | ParseFailed | NoOperation | Decoded(op: TaskOperation)

  function DecodeAttempt(p: Parsed): Decoded {
    match p
    case Failed => ParseFailed
    case Null => NoOperation
    case Parsed(op) => Decoded(op)
  }

  /** The two-attempt decode: the candidate, or, only when that raises, its repaired form. */
  function Decode(fullResponse: string, parse: string -> Option<Json>, newId: string, now: DateTime): (r: Decoded)
    ensures r.NoJson? <==> '{' !in fullResponse
    ensures r.ParseFailed? ==>
      && Candidate(fullResponse).Some?
      && Deserialize(Candidate(fullResponse).value, parse, newId, now).Failed?
      && Deserialize(FixCommonJsonIssues(Candidate(fullResponse).value), parse, newId, now).Failed?
  {
    match Candidate(fullResponse)
    case None => NoJson
    case Some(json) =>
      var first := Deserialize(json, parse, newId, now);
      if first.Failed? then DecodeAttempt(Deserialize(FixCommonJsonIssues(json), parse, newId, now))
      else DecodeAttempt(first)
  }

  lemma CandidateIs(fullResponse: string, json: string)
    requires FirstJsonObject(fullResponse) == Some(json)
    ensures var braceCount := Count(json, '{') - Count(json, '}');
      Candidate(fullResponse) == Some(if braceCount > 0 then json + Repeat('}', braceCount) else json)
  {
  }

  lemma DecodeCandidate(fullResponse: string, json: string, parse: string -> Option<Json>, newId: string, now: DateTime)
    requires Candidate(fullResponse) == Some(json)
    ensures var first := Deserialize(json, parse, newId, now);
      Decode(fullResponse, parse, newId, now) ==
        if first.Failed? then DecodeAttempt(Deserialize(FixCommonJsonIssues(json), parse, newId, now))
        else DecodeAttempt(first)
  {
  }

  /** The decoding steps of `HandleTaskOperation`: extract the first object, close it, deserialise,
      and on an exception deserialise the repaired text once more. */
  method DecodeReply(fullResponse: string, parse: string -> Option<Json>, newId: string, now: DateTime)
    returns (d: Decoded)
    ensures d == Decode(fullResponse, parse, newId, now)
  {
    var extracted := ExtractFirstJsonObject(fullResponse);
    if extracted.None? || extracted.value == "" {
      assert Candidate(fullResponse).None?;
      return NoJson;
    }
    var json := extracted.value;
    var braceCount := Count(json, '{') - Count(json, '}');
    if braceCount > 0 {
      json := json + Repeat('}', braceCount);
    }
    CandidateIs(fullResponse, extracted.value);
    DecodeCandidate(fullResponse, json, parse, newId, now);
    var taskOp := Deserialize(json, parse, newId, now);
    if taskOp.Failed? {
      json := FixCommonJsonIssues(json);
      taskOp := Deserialize(json, parse, newId, now);
    }
    d := DecodeAttempt(taskOp);
  }

  /** The parser is consulted on two texts at most: the candidate and its repair. Two parsers that
      agree on those decode alike, and a first attempt that does not raise decides alone. */
  lemma DecodeReadsOnlyCandidates(fullResponse: string, parse: string -> Option<Json>, other: string -> Option<Json>, newId: string, now: DateTime)
    requires Candidate(fullResponse).Some? ==>
      var json := Candidate(fullResponse).value;
      parse(json) == other(json) && (Deserialize(json, parse, newId, now).Failed? ==>
        parse(FixCommonJsonIssues(json)) == other(FixCommonJsonIssues(json)))
    ensures Decode(fullResponse, parse, newId, now) == Decode(fullResponse, other, newId, now)
  {
  }

  /** There is no operation exactly when the reply has no `{`, both attempts raise, or the JSON is
      `null`; the repaired text is decoded only after the first attempt raised. */
  lemma DecodeOutcomes(fullResponse: string, parse: string -> Option<Json>, newId: string, now: DateTime)
    ensures Decode(fullResponse, parse, newId, now) == NoJson <==> '{' !in fullResponse
    ensures Decode(fullResponse, parse, newId, now) == ParseFailed <==>
      Candidate(fullResponse).Some? &&
      Deserialize(Candidate(fullResponse).value, parse, newId, now).Failed? &&
      Deserialize(FixCommonJsonIssues(Candidate(fullResponse).value), parse, newId, now).Failed?
    ensures Candidate(fullResponse).Some? && !Deserialize(Candidate(fullResponse).value, parse, newId, now).Failed? ==>
      Decode(fullResponse, parse, newId, now) == DecodeAttempt(Deserialize(Candidate(fullResponse).value, parse, newId, now))
  {
  }

  // ---------------------------------------------------------------------------
  // Dispatch and per-operation checks.

  /** The task `HandleCreateTask` stores: a non-empty due-date text is resolved against today. */
  function WithResolvedDueDate(task: TaskItem, today: Date): (r: TaskItem)
    requires ValidDate(today)
    ensures r.(dueDate := task.dueDate) == task
  {
    if task.dueDateString.Some? && task.dueDateString.value != "" then
      task.(dueDate := ParseNaturalDate(task.dueDateString, today))
    else task
  }

  /** A decoded task has no resolved date, so the stored one is exactly what the phrase table gives
      for its due-date text: a recognised phrase at midnight, otherwise none. */
  lemma CreatedDueDate(task: TaskItem, today: Date)
    requires ValidDate(today) && task.dueDate.None?
    ensures WithResolvedDueDate(task, today).dueDate == ParseNaturalDate(task.dueDateString, today)
    ensures WithResolvedDueDate(task, today).dueDate.Some? <==>
      task.dueDateString.Some? && Trim(ToLower(task.dueDateString.value)) in Phrases
  {
    ParseNaturalDateDefined(task.dueDateString, today);
    if task.dueDateString == Some("") {
      assert WithResolvedDueDate(task, today) == task;
      LowerFixed("");
      assert Trim("") == "";
      assert "" !in Phrases;
    } else if task.dueDateString.Some? {
      assert WithResolvedDueDate(task, today).dueDate == ParseNaturalDate(task.dueDateString, today);
    }
  }

  /** `HandleCreateTask`: a task is required; its due-date text is resolved, then it is stored. */
  function CreateOutcome(tasks: seq<TaskItem>, op: TaskOperation, now: DateTime): (seq<TaskItem>, TaskResponse)
    requires ValidDateTime(now)
  {
    if op.task.None? then (tasks, Failure("No task data provided"))
    else CreateEffect(tasks, WithResolvedDueDate(op.task.value, StartOfDay(now).date))
  }

  /** `HandleUpdateTask`: an id and a task are required, in that order. */
  function UpdateOutcome(tasks: seq<TaskItem>, op: TaskOperation, now: DateTime): (seq<TaskItem>, TaskResponse) {
    if op.taskId.None? || op.taskId.value == "" then (tasks, Failure("Task ID is required for updates"))
    else if op.task.None? then (tasks, Failure("No update data provided"))
    else UpdateEffect(tasks, op.taskId.value, op.task.value, now)
  }

  /** `HandleDeleteTask`: an id is required. */
  function DeleteOutcome(tasks: seq<TaskItem>, op: TaskOperation): (seq<TaskItem>, TaskResponse) {
    if op.taskId.None? || op.taskId.value == "" then (tasks, Failure("Task ID is required for deletion"))
    else DeleteEffect(tasks, op.taskId.value)
  }

  /** What the `Operation` switch does to the list and answers: create, read, update and delete go
      to the store after their checks, any other operation is refused. */
  function Perform(tasks: seq<TaskItem>, op: TaskOperation, now: DateTime): (r: (seq<TaskItem>, TaskResponse))
    requires ValidDateTime(now)
    ensures !r.1.success ==> r.0 == tasks
    ensures |r.0| == |tasks| + (if op.operation == "create" && r.1.success then 1 else 0)
                             - (if op.operation == "delete" && r.1.success then 1 else 0)
  {
    if op.operation == "create" then CreateOutcome(tasks, op, now)
    else if op.operation == "read" then ReadEffect(tasks, op.filter, now)
    else if op.operation == "update" then UpdateOutcome(tasks, op, now)
    else if op.operation == "delete" then DeleteOutcome(tasks, op)
    else (tasks, Failure("Unknown operation: " + op.operation))
  }

  /** The refusals: each answers with its message and leaves the list as it was. */
  lemma Refusals(tasks: seq<TaskItem>, op: TaskOperation, now: DateTime)
    requires ValidDateTime(now)
    ensures op.operation !in {"create", "read", "update", "delete"} ==>
      Perform(tasks, op, now) == (tasks, Failure("Unknown operation: " + op.operation))
    ensures op.operation == "create" && op.task.None? ==>
      Perform(tasks, op, now) == (tasks, Failure("No task data provided"))
    ensures op.operation == "update" && op.taskId in {None, Some("")} ==>
      Perform(tasks, op, now) == (tasks, Failure("Task ID is required for updates"))
    ensures op.operation == "update" && op.taskId !in {None, Some("")} && op.task.None? ==>
      Perform(tasks, op, now) == (tasks, Failure("No update data provided"))
    ensures op.operation == "delete" && op.taskId in {None, Some("")} ==>
      Perform(tasks, op, now) == (tasks, Failure("Task ID is required for deletion"))
  {
    if op.operation == "create" {
      assert Perform(tasks, op, now) == CreateOutcome(tasks, op, now);
    } else if op.operation == "read" {
    } else if op.operation == "update" {
      assert Perform(tasks, op, now) == UpdateOutcome(tasks, op, now);
      if op.taskId !in {None, Some("")} {
        assert op.taskId != None && op.taskId != Some("");
        assert op.taskId.value != "";
      }
    } else if op.operation == "delete" {
      assert Perform(tasks, op, now) == DeleteOutcome(tasks, op);
    }
  }

  /** An update that came from JSON never changes a due date: decoded tasks carry none, and the
      update path does not resolve the text. */
  lemma UpdateKeepsDueDate(tasks: seq<TaskItem>, op: TaskOperation, now: DateTime)
    requires ValidDateTime(now)
    requires op.operation == "update" && op.task.Some? && op.task.value.dueDate.None?
    ensures |Perform(tasks, op, now).0| == |tasks|
    ensures forall j | 0 <= j < |tasks| :: Perform(tasks, op, now).0[j].dueDate == tasks[j].dueDate
  {
    if op.taskId.Some? && op.taskId.value != "" {
      var found := FindTask(tasks, op.taskId.value);
      if found.Some? {
        assert ApplyUpdate(tasks[found.value], op.task.value, now).dueDate == tasks[found.value].dueDate;
      }
    }
  }

  // ---------------------------------------------------------------------------
  // Whole requests.

  /** `HandleTaskOperation` on the model's joined reply: the list after it and the answer. */
  function Respond(tasks: seq<TaskItem>, fullResponse: string, parse: string -> Option<Json>, newId: string, now: DateTime): (r: (seq<TaskItem>, Reply))
    requires ValidDateTime(now)
    ensures r.1.Chatted? ==> r.0 == tasks && r.1.chat.success && r.1.chat.response == Some(Trim(fullResponse))
    ensures '{' !in fullResponse ==> r == (tasks, Chatted(Fallback(fullResponse, NoJsonMessage)))
    ensures r.1.Handled? && !r.1.result.success ==> r.0 == tasks
  {
    match Decode(fullResponse, parse, newId, now)
    case NoJson => (tasks, Chatted(Fallback(fullResponse, NoJsonMessage)))
    case ParseFailed => (tasks, Chatted(Fallback(fullResponse, ParseFailedMessage)))
    case NoOperation => (tasks, Chatted(Fallback(fullResponse, NoOperationMessage)))
    case Decoded(op) =>
      var (after, result) := Perform(tasks, op, now);
      (after, Handled(result))
  }

  lemma RespondDecoded(tasks: seq<TaskItem>, fullResponse: string, parse: string -> Option<Json>, newId: string, now: DateTime, op: TaskOperation)
    requires ValidDateTime(now) && Decode(fullResponse, parse, newId, now) == Decoded(op)
    ensures Respond(tasks, fullResponse, parse, newId, now) == (Perform(tasks, op, now).0, Handled(Perform(tasks, op, now).1))
  {
  }

  /** The store is used exactly when an operation was decoded; every other outcome is a
      successful chat answer holding the trimmed reply, with the list untouched. */
  lemma RespondFallbacks(tasks: seq<TaskItem>, fullResponse: string, parse: string -> Option<Json>, newId: string, now: DateTime)
    requires ValidDateTime(now)
    ensures var (after, reply) := Respond(tasks, fullResponse, parse, newId, now);
      && (reply.Chatted? <==> !Decode(fullResponse, parse, newId, now).Decoded?)
      && (reply.Chatted? ==> after == tasks && reply.chat.success && reply.chat.response == Some(Trim(fullResponse)))
      && ('{' !in fullResponse ==> reply == Chatted(Fallback(fullResponse, NoJsonMessage)))
      && (reply.Handled? && !reply.result.success ==> after == tasks)
  {
    DecodeOutcomes(fullResponse, parse, newId, now);
  }

  /** `Chat`: the list after a request and the answer, given the backend's status and lines. */
  function ChatOutcome(tasks: seq<TaskItem>, message: string, status: int, lines: seq<string>,
                       lineParse: string -> LlmClient.LineParse, parse: string -> Option<Json>,
                       newId: string, now: DateTime): (r: (seq<TaskItem>, Reply))
    requires ValidDateTime(now)
    ensures !LlmClient.IsSuccessStatus(status) ==> r == (tasks, Chatted(Trouble))
    ensures !IsTaskRelatedMessage(message) ==> r.0 == tasks && r.1.Chatted?
    ensures r.1.Handled? ==> IsTaskRelatedMessage(message) && LlmClient.IsSuccessStatus(status)
  {
    var stream := if LlmClient.IsSuccessStatus(status) then LlmClient.Collect(lines, lineParse) else LlmClient.Faulted([]);
    if stream.Faulted? then (tasks, Chatted(Trouble))
    else
      var fullResponse := Concat(stream.fragments);
      if IsTaskRelatedMessage(message) then Respond(tasks, fullResponse, parse, newId, now)
      else (tasks, Chatted(Fallback(fullResponse, ConversationMessage)))
  }

  /** A message that is not task-related, and in particular one holding a conversational phrase,
      never reaches the store; nor does a backend that fails. */
  lemma ConversationKeepsStore(tasks: seq<TaskItem>, message: string, status: int, lines: seq<string>,
                               lineParse: string -> LlmClient.LineParse, parse: string -> Option<Json>,
                               newId: string, now: DateTime)
    requires ValidDateTime(now)
    requires !IsTaskRelatedMessage(message) || ContainsAny(Normalize(message), ConversationalPhrases)
      || !LlmClient.IsSuccessStatus(status)
    ensures var (after, reply) := ChatOutcome(tasks, message, status, lines, lineParse, parse, newId, now);
      after == tasks && reply.Chatted? && reply.chat.success
  {
    ClassifierDecision(message);
  }

  /** A task-related message whose model reply has no `{` is answered with the joined fragments. */
  lemma NoObjectIsConversation(tasks: seq<TaskItem>, message: string, status: int, lines: seq<string>,
                               lineParse: string -> LlmClient.LineParse, parse: string -> Option<Json>,
                               newId: string, now: DateTime)
    requires ValidDateTime(now) && IsTaskRelatedMessage(message) && LlmClient.IsSuccessStatus(status)
    requires LlmClient.Collect(lines, lineParse).Completed?
    requires '{' !in Concat(LlmClient.Collect(lines, lineParse).fragments)
    ensures ChatOutcome(tasks, message, status, lines, lineParse, parse, newId, now) ==
      (tasks, Chatted(Fallback(Concat(LlmClient.Collect(lines, lineParse).fragments), NoJsonMessage)))
  {
    RespondFallbacks(tasks, Concat(LlmClient.Collect(lines, lineParse).fragments), parse, newId, now);
  }

  /** "thanks, bye" holds the phrase "thanks", so the request is answered in conversation. */
  lemma ThanksByeIsConversation(tasks: seq<TaskItem>, status: int, lines: seq<string>,
                                lineParse: string -> LlmClient.LineParse, parse: string -> Option<Json>,
                                newId: string, now: DateTime)
    requires ValidDateTime(now)
    ensures ChatOutcome(tasks, "thanks, bye", status, lines, lineParse, parse, newId, now).0 == tasks
  {
    LowerTrimmedFixed("thanks, bye");
    assert LitAt(Normalize("thanks, bye"), 0, ConversationalPhrases[11]);
    ConversationKeepsStore(tasks, "thanks, bye", status, lines, lineParse, parse, newId, now);
  }

  /** A read asking for "all" lists every task, in order, and changes nothing. */
  lemma ReadAllListsEverything(tasks: seq<TaskItem>, now: DateTime)
    requires ValidDateTime(now)
    ensures var r := Perform(tasks, TaskOperation("read", None, None, Some("all")), now);
      r.0 == tasks && r.1.success && r.1.task == None && r.1.tasks == Some(tasks)
    ensures var r := Perform(tasks, TaskOperation("read", None, None, Some("all")), now);
      r.1.message == Some("Found " + NatToString(|r.1.tasks.value|) + " tasks")
  {
    LowerFixed("all");
  }

  /** Any update JSON that decodes but omits "taskId" or gives null is refused for the missing id,
      whatever its "task" says. */
  lemma UpdateWithoutIdRefused(tasks: seq<TaskItem>, ms: seq<(string, Json)>, newId: string, now: DateTime)
    requires ValidDateTime(now)
    requires Lookup(ms, "operation") == Some(JString("update"))
    requires Lookup(ms, "taskId") in {None, Some(JNull)}
    requires ReadTaskOperation(JObject(ms), newId, now).Parsed?
    ensures Perform(tasks, ReadTaskOperation(JObject(ms), newId, now).op, now) ==
      (tasks, Failure("Task ID is required for updates"))
  {
    var op := ReadTaskOperation(JObject(ms), newId, now).op;
    OperationOptionalMembers(ms, newId, now);
    Refusals(tasks, op, now);
  }

  class TaskController {
    const client: LlmClient.LlmChat
    const service: TaskService

    /** `new TaskController()`: a store over the loaded list and a client with the configured
        model name and base URL (None where the environment variable is unset). */
    constructor (loaded: seq<TaskItem>, modelName: Option<string>, baseUrl: Option<string>)
      ensures client == LlmClient.NewLlmChat(modelName, baseUrl)
      ensures fresh(service) && service.tasks == loaded
    {
      client := LlmClient.NewLlmChat(modelName, baseUrl);
      service := new TaskService(loaded);
    }

    method HandleCreateTask(taskOp: TaskOperation, now: DateTime) returns (result: TaskResponse)
      requires ValidDateTime(now)
      modifies service
      ensures (service.tasks, result) == CreateOutcome(old(service.tasks), taskOp, now)
    {
      if taskOp.task.None? {
        return Failure("No task data provided");
      }
      var task := taskOp.task.value;
      if task.dueDateString.Some? && task.dueDateString.value != "" {
        task := task.(dueDate := ParseNaturalDate(task.dueDateString, StartOfDay(now).date));
      }
      result := service.CreateTask(task);
    }

    method HandleReadTasks(taskOp: TaskOperation, now: DateTime) returns (result: TaskResponse)
      ensures (service.tasks, result) == ReadEffect(service.tasks, taskOp.filter, now)
    {
      result := service.ReadTasks(taskOp.filter, now);
    }

    method HandleUpdateTask(taskOp: TaskOperation, now: DateTime) returns (result: TaskResponse)
      modifies service
      ensures (service.tasks, result) == UpdateOutcome(old(service.tasks), taskOp, now)
    {
      if taskOp.taskId.None? || taskOp.taskId.value == "" {
        return Failure("Task ID is required for updates");
      }
      if taskOp.task.None? {
        return Failure("No update data provided");
      }
      result := service.UpdateTask(taskOp.taskId.value, taskOp.task.value, now);
    }

    method HandleDeleteTask(taskOp: TaskOperation) returns (result: TaskResponse)
      modifies service
      ensures (service.tasks, result) == DeleteOutcome(old(service.tasks), taskOp)
    {
      if taskOp.taskId.None? || taskOp.taskId.value == "" {
        return Failure("Task ID is required for deletion");
      }
      result := service.DeleteTask(taskOp.taskId.value);
    }

    /** The `Operation` switch. */
    method Dispatch(taskOp: TaskOperation, now: DateTime) returns (result: TaskResponse)
      requires ValidDateTime(now)
      modifies service
      ensures (service.tasks, result) == Perform(old(service.tasks), taskOp, now)
    {
      if taskOp.operation == "create" {
        result := HandleCreateTask(taskOp, now);
      } else if taskOp.operation == "read" {
        result := HandleReadTasks(taskOp, now);
      } else if taskOp.operation == "update" {
        result := HandleUpdateTask(taskOp, now);
      } else if taskOp.operation == "delete" {
        result := HandleDeleteTask(taskOp);
      } else {
        result := Failure("Unknown operation: " + taskOp.operation);
      }
    }

    /** `HandleTaskOperation`: decode the reply, then dispatch the operation or fall back to
        answering in conversation. */
    method HandleTaskOperation(fullResponse: string, parse: string -> Option<Json>, newId: string, now: DateTime)
      returns (reply: Reply)
      requires ValidDateTime(now)
      modifies service
      ensures (service.tasks, reply) == Respond(old(service.tasks), fullResponse, parse, newId, now)
    {
      var decoded := DecodeReply(fullResponse, parse, newId, now);
      match decoded
      case NoJson =>
        reply := Chatted(Fallback(fullResponse, NoJsonMessage));
      case ParseFailed =>
        reply := Chatted(Fallback(fullResponse, ParseFailedMessage));
      case NoOperation =>
        reply := Chatted(Fallback(fullResponse, NoOperationMessage));
      case Decoded(op) =>
        RespondDecoded(service.tasks, fullResponse, parse, newId, now, op);
        var result := Dispatch(op, now);
        reply := Handled(result);
    }

    /** `Chat`: classify, ask the model with the matching prompt, join the fragments, then answer
        in conversation or run the task pipeline; a failing backend gets the friendly answer. */
    method Chat(message: string, status: int, lines: seq<string>, lineParse: string -> LlmClient.LineParse,
                parse: string -> Option<Json>, newId: string, now: DateTime)
      returns (request: LlmClient.GenerateRequest, reply: Reply)
      requires ValidDateTime(now)
      modifies service
      ensures request.prompt == LlmClient.BuildPrompt(message, IsTaskRelatedMessage(message))
      ensures request.model == client.modelName && request.stream
      ensures (service.tasks, reply) == ChatOutcome(old(service.tasks), message, status, lines, lineParse, parse, newId, now)
    {
      var isTaskRelated := IsTaskRelatedMessage(message);
      var stream;
      request, stream := LlmClient.SendAsync(client, message, isTaskRelated, status, lines, lineParse);
      if stream.Faulted? {
        return request, Chatted(Trouble);
      }
      var fullResponse := "";
      var i := 0;
      while i < |stream.fragments|
        invariant 0 <= i <= |stream.fragments|
        invariant fullResponse == Concat(stream.fragments[..i])
      {
        assert stream.fragments[..i + 1][..i] == stream.fragments[..i];
        fullResponse := fullResponse + stream.fragments[i];
        i := i + 1;
      }
      assert stream.fragments[..i] == stream.fragments;
      if isTaskRelated {
        reply := HandleTaskOperation(fullResponse, parse, newId, now);
      } else {
        reply := Chatted(Fallback(fullResponse, ConversationMessage));
      }
    }
  }
}

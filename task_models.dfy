/**
 * The records exchanged by the task pipeline (`TaskOperation`, `TaskItem`,
 * `TaskResponse`), the JSON property mapping of `TaskItem` with its default
 * initialisers, and the `StringDateConverter` used for `dueDate`.
 *
 * Properties declared as a non-nullable `string` (`Operation`, `Title`,
 * `Priority`, `Status`, `Id`) are `string` here and a JSON null stored into
 * them is the empty string: every use of them in the core is
 * `string.IsNullOrEmpty`, an equality with a literal or interpolation, none of
 * which tells null from "".
 */
module TaskModels {
  import opened Wrappers
  import opened Text
  import opened Calendar

  datatype TaskItem = TaskItem(
    id: string,
    title: string,
    description: Option<string>,
    dueDateString: Option<string>,   // the raw "dueDate" text from the model
    dueDate: Option<DateTime>,       // the resolved date; never read from or written to JSON
    priority: string,
    status: string,
    createdAt: DateTime,
    completedAt: Option<DateTime>)

  datatype TaskOperation = TaskOperation(
    operation: string,
    task: Option<TaskItem>,
    taskId: Option<string>,
    filter: Option<string>)

  datatype TaskResponse = TaskResponse(
    success: bool,
    message: Option<string>,
    tasks: Option<seq<TaskItem>>,
    task: Option<TaskItem>)

  /** A freshly constructed `TaskItem`: the declaration's initialisers, with `Guid.NewGuid()` and
      `DateTime.Now` passed in. `Title` is required but has no initialiser, so it is null (""). */
  function NewTaskItem(newId: string, now: DateTime): TaskItem {
    TaskItem(newId, "", None, None, None, "medium", "pending", now, None)
  }

  // ---------------------------------------------------------------------------
  // JSON values, as a parser hands them to the serializer.

  datatype Json =
    | JNull
    | JBool(b: bool)
    | JInt(i: int)
    | JString(s: string)
    | JDate(t: DateTime)
    | JArray(items: seq<Json>)
    | JObject(members: seq<(string, Json)>)

  /** The token a reader stands on at the start of a value. */
  datatype JsonToken =
    | NullToken
    | BooleanToken(b: bool)
    | IntegerToken(i: int)
    | StringToken(s: string)
    | DateToken(t: DateTime)
    | StartArrayToken
    | StartObjectToken

  function TokenOf(v: Json): JsonToken {
    match v
    case JNull => NullToken
    case JBool(b) => BooleanToken(b)
    case JInt(i) => IntegerToken(i)
    case JString(s) => StringToken(s)
    case JDate(t) => DateToken(t)
    case JArray(_) => StartArrayToken
    case JObject(_) => StartObjectToken
  }

  /** `bool.ToString()`. */
  function BoolText(b: bool): string {
    if b then "True" else "False"
  }

  /** `reader.Value?.ToString()`: the text of a scalar token, or null where the token has no value.
      Date tokens are not rendered by this model (culture-specific formatting). */
  function TokenText(t: JsonToken): Option<string> {
    match t
    case BooleanToken(b) => Some(BoolText(b))
    case IntegerToken(i) => Some(IntToString(i))
    case StringToken(s) => Some(s)
    case _ => None
  }

  /** `StringDateConverter.ReadJson`. */
  function ReadJson(t: JsonToken): (r: Option<string>)
    ensures t == NullToken ==> r == None
    ensures t != NullToken ==> r == TokenText(t)
  {
    if t == NullToken then None else TokenText(t)
  }

  /** `StringDateConverter.WriteJson`. */
  function WriteJson(value: Option<string>): (t: JsonToken)
    ensures value == None <==> t == NullToken
    ensures value.Some? ==> t == StringToken(value.value)
  {
    match value
    case None => NullToken
    case Some(s) => StringToken(s)
  }

  /** Writing a value with the converter and reading it back gives the same value. */
  lemma ConverterRoundTrip(value: Option<string>)
    ensures ReadJson(WriteJson(value)) == value
  {
  }

  /** Reading a token with the converter and writing the result back gives the token itself for
      null and strings, and the text of the value for booleans and integers: the due date
      always leaves the converter as text or null. */
  lemma ConverterNormalises(t: JsonToken)
    requires t.NullToken? || t.StringToken? || t.BooleanToken? || t.IntegerToken?
    ensures t.NullToken? || t.StringToken? ==> WriteJson(ReadJson(t)) == t
    ensures t.BooleanToken? ==> WriteJson(ReadJson(t)) == StringToken(if t.b then "True" else "False")
    ensures t.IntegerToken? ==> WriteJson(ReadJson(t)) == StringToken(IntToString(t.i))
  {
  }

  /** The value stored under `name`; when a name repeats, the last one wins, as the serializer
      assigns members in order. */
  function Lookup(members: seq<(string, Json)>, name: string): (r: Option<Json>)
    ensures r.Some? <==> exists k :: 0 <= k < |members| && members[k].0 == name
    ensures r.Some? ==> exists k :: 0 <= k < |members| && members[k] == (name, r.value)
  {
    if members == [] then None
    else if members[|members| - 1].0 == name then Some(members[|members| - 1].1)
    else
      var r := Lookup(members[..|members| - 1], name);
      assert forall k :: 0 <= k < |members| - 1 ==> members[..|members| - 1][k] == members[k];
      r
  }

  /** The member a lookup finds is the last one with that name. */
  lemma {:induction false} LookupLast(members: seq<(string, Json)>, k: nat)
    requires k < |members|
    requires forall j :: k < j < |members| ==> members[j].0 != members[k].0
    ensures Lookup(members, members[k].0) == Some(members[k].1)
  {
    if k < |members| - 1 {
      var init := members[..|members| - 1];
      assert init[k] == members[k];
      LookupLast(init, k);
    }
  }

  /** What deserialising one member into a property gives: nothing (keep the initialiser), a value
      (possibly null), or an exception. */
  datatype Field = Absent | Present(value: Option<string>) | Rejected

  /** The text `JsonTextReader.ReadAsString` gives for a boolean: its JSON spelling. */
  function JsonBoolText(b: bool): string {
    if b then "true" else "false"
  }

  /** A member read into a `string` property: scalars become their text (a boolean as it is
      spelled in JSON), null stays null, arrays, objects and date tokens are rejected. */
  function StringMember(members: seq<(string, Json)>, name: string): Field {
    match Lookup(members, name)
    case None => Absent
    case Some(v) =>
      if v.JNull? then Present(None)
      else if v.JBool? then Present(Some(JsonBoolText(v.b)))
      else if v.JInt? || v.JString? then Present(TokenText(TokenOf(v)))
      else Rejected
  }

  /** The "dueDate" member, read through `StringDateConverter.ReadJson`. The converter does not
      consume an array or an object, which the serializer then rejects; date tokens are left out. */
  function DueDateMember(members: seq<(string, Json)>): Field {
    match Lookup(members, "dueDate")
    case None => Absent
    case Some(v) =>
      if v.JArray? || v.JObject? || v.JDate? then Rejected else Present(ReadJson(TokenOf(v)))
  }

  function StringOr(f: Field, default: string): string
    requires !f.Rejected?
  {
    match f
    case Absent => default
    case Present(v) => v.GetOr("")
  }

  function NullableOr(f: Field, default: Option<string>): Option<string>
    requires !f.Rejected?
  {
    match f
    case Absent => default
    case Present(v) => v
  }

  /** The members `ReadTaskItem` reads. */
  const TaskItemNames: seq<string> := ["id", "title", "description", "dueDate", "priority", "status"]

  /** A value no text property can be read from: an array, an object, or a date. */
  predicate Unreadable(v: Json) {
    v.JArray? || v.JObject? || v.JDate?
  }

  /** Deserialising a JSON object into a new `TaskItem`: the initialisers first, then each mapped
      member present. `DueDate` is `[JsonIgnore]`, and `createdAt`/`completedAt` members are not
      read by this model. None is a deserialisation exception. */
  function ReadTaskItem(members: seq<(string, Json)>, newId: string, now: DateTime): (r: Option<TaskItem>)
    ensures r.None? <==> exists name | name in TaskItemNames ::
      Lookup(members, name).Some? && Unreadable(Lookup(members, name).value)
    ensures r.Some? ==> r.value.dueDate.None? && r.value.completedAt.None? && r.value.createdAt == now
  {
    RejectedMembers(members);
    var id, title, description := StringMember(members, "id"), StringMember(members, "title"), StringMember(members, "description");
    var due, priority, status := DueDateMember(members), StringMember(members, "priority"), StringMember(members, "status");
    if id.Rejected? || title.Rejected? || description.Rejected? || due.Rejected? || priority.Rejected? || status.Rejected?
    then None
    else
      var d := NewTaskItem(newId, now);
      Some(d.(id := StringOr(id, d.id), title := StringOr(title, d.title),
              description := NullableOr(description, d.description),
              dueDateString := NullableOr(due, d.dueDateString),
              priority := StringOr(priority, d.priority), status := StringOr(status, d.status)))
  }

  /** A text member is rejected exactly when it holds an array, an object or a date. */
  lemma StringMemberRejected(members: seq<(string, Json)>, name: string)
    ensures StringMember(members, name).Rejected? <==>
      Lookup(members, name).Some? && Unreadable(Lookup(members, name).value)
  {
  }

  /** Some member is rejected exactly when one of the names holds an unreadable value. */
  lemma RejectedMembers(members: seq<(string, Json)>)
    ensures (|| StringMember(members, "id").Rejected? || StringMember(members, "title").Rejected?
             || StringMember(members, "description").Rejected? || DueDateMember(members).Rejected?
             || StringMember(members, "priority").Rejected? || StringMember(members, "status").Rejected?)
      <==> exists name | name in TaskItemNames :: Lookup(members, name).Some? && Unreadable(Lookup(members, name).value)
  {
    StringMemberRejected(members, "id");
    StringMemberRejected(members, "title");
    StringMemberRejected(members, "description");
    StringMemberRejected(members, "priority");
    StringMemberRejected(members, "status");
    if name :| name in TaskItemNames && Lookup(members, name).Some? && Unreadable(Lookup(members, name).value) {
      assert name == "id" || name == "title" || name == "description" || name == "dueDate"
        || name == "priority" || name == "status";
    }
  }

  /** A decoded task never carries a resolved date, and every member the object omits keeps its
      initialiser: priority "medium", status "pending", no completion time, a fresh id. */
  lemma ReadTaskItemDefaults(members: seq<(string, Json)>, newId: string, now: DateTime)
    requires ReadTaskItem(members, newId, now).Some?
    ensures var t := ReadTaskItem(members, newId, now).value;
      && t.dueDate == None && t.completedAt == None && t.createdAt == now
      && (Lookup(members, "priority") == None ==> t.priority == "medium")
      && (Lookup(members, "status") == None ==> t.status == "pending")
      && (Lookup(members, "id") == None ==> t.id == newId)
      && (Lookup(members, "dueDate") == None ==> t.dueDateString == None)
  {
  }

  /** The members `TaskItem` serialises to, in declaration order. `DueDate` is not among them;
      "dueDate" carries `DueDateString` through the converter. */
  function WriteTaskItem(t: TaskItem): seq<(string, Json)> {
    [("id", JString(t.id)), ("title", JString(t.title)),
     ("description", match t.description case None => JNull case Some(s) => JString(s)),
     ("dueDate", match WriteJson(t.dueDateString) case StringToken(s) => JString(s) case _ => JNull),
     ("priority", JString(t.priority)), ("status", JString(t.status)),
     ("createdAt", JDate(t.createdAt)),
     ("completedAt", match t.completedAt case None => JNull case Some(c) => JDate(c))]
  }

  /** The resolved due date does not travel: two tasks that differ only in it serialise alike, and
      "dueDate" holds the raw text. */
  lemma DueDateIsNotSerialised(t: TaskItem, other: Option<DateTime>)
    ensures WriteTaskItem(t.(dueDate := other)) == WriteTaskItem(t)
    ensures Lookup(WriteTaskItem(t), "dueDate") ==
      Some(match t.dueDateString case None => JNull case Some(s) => JString(s))
  {
    LookupLast(WriteTaskItem(t), 3);
  }

  /** A member of a serialised task found by its position; no later member has its name. */
  lemma WrittenMember(t: TaskItem, k: nat)
    requires k < 6
    ensures Lookup(WriteTaskItem(t), WriteTaskItem(t)[k].0) == Some(WriteTaskItem(t)[k].1)
  {
    var w := WriteTaskItem(t);
    assert w[0].0 == "id" && w[1].0 == "title" && w[2].0 == "description";
    assert w[3].0 == "dueDate" && w[4].0 == "priority" && w[5].0 == "status";
    assert w[6].0 == "createdAt" && w[7].0 == "completedAt";
    LookupLast(w, k);
  }

  /** A string or null member reads into a `string` property as that value. */
  lemma TextMember(ms: seq<(string, Json)>, name: string, v: Option<string>)
    requires Lookup(ms, name) == Some(match v case None => JNull case Some(s) => JString(s))
    ensures StringMember(ms, name) == Present(v)
  {
  }

  /** Each text member of a serialised task reads back as the value written. */
  lemma WrittenNameMembers(t: TaskItem)
    ensures StringMember(WriteTaskItem(t), "id") == Present(Some(t.id))
    ensures StringMember(WriteTaskItem(t), "title") == Present(Some(t.title))
    ensures StringMember(WriteTaskItem(t), "description") == Present(t.description)
  {
    var w := WriteTaskItem(t);
    WrittenMember(t, 0);
    TextMember(w, "id", Some(t.id));
    WrittenMember(t, 1);
    TextMember(w, "title", Some(t.title));
    WrittenMember(t, 2);
    TextMember(w, "description", t.description);
  }

  lemma WrittenStateMembers(t: TaskItem)
    ensures DueDateMember(WriteTaskItem(t)) == Present(t.dueDateString)
    ensures StringMember(WriteTaskItem(t), "priority") == Present(Some(t.priority))
    ensures StringMember(WriteTaskItem(t), "status") == Present(Some(t.status))
  {
    var w := WriteTaskItem(t);
    WrittenMember(t, 3);
    WrittenMember(t, 4);
    TextMember(w, "priority", Some(t.priority));
    WrittenMember(t, 5);
    TextMember(w, "status", Some(t.status));
  }

  /** Serialising a task and deserialising the result recovers its text fields; the resolved date
      is lost and the timestamps are the ones a new object starts with. */
  lemma TaskItemRoundTrip(t: TaskItem, newId: string, now: DateTime)
    ensures ReadTaskItem(WriteTaskItem(t), newId, now) ==
      Some(t.(dueDate := None, createdAt := now, completedAt := None))
  {
    WrittenNameMembers(t);
    WrittenStateMembers(t);
  }

  /** What `JsonConvert.DeserializeObject<TaskOperation>` gives: an exception, null, or an object. */
  datatype Parsed = Failed | Null | Parsed(op: TaskOperation)

  /** The "task" member read into the nullable `Task` property: absent or null gives null, an
      object is deserialised, anything else raises (the outer `None`). */
  function TaskMember(ms: seq<(string, Json)>, newId: string, now: DateTime): (r: Option<Option<TaskItem>>)
    ensures r.Some? ==> (r.value.None? <==> Lookup(ms, "task") in {None, Some(JNull)})
  {
    match Lookup(ms, "task")
    case None => Some(None)
    case Some(JNull) => Some(None)
    case Some(JObject(tm)) => (match ReadTaskItem(tm, newId, now) case None => None case Some(t) => Some(Some(t)))
    case Some(_) => None
  }

  /** Deserialising a parsed JSON value into a `TaskOperation`. The literal `null` gives null; other
      non-objects, and members of the wrong shape, raise. `required` is a compile-time modifier that
      the serializer does not enforce: a missing "operation" leaves it null (""). */
  function ReadTaskOperation(v: Json, newId: string, now: DateTime): (r: Parsed)
    ensures r == Null <==> v == JNull
    ensures r.Parsed? ==> v.JObject?
  {
    match v
    case JNull => Null
    case JObject(ms) =>
      var operation, taskId, filter := StringMember(ms, "operation"), StringMember(ms, "taskId"), StringMember(ms, "filter");
      var task := TaskMember(ms, newId, now);
      if operation.Rejected? || taskId.Rejected? || filter.Rejected? || task.None? then Failed
      else Parsed(TaskOperation(StringOr(operation, ""), task.value, NullableOr(taskId, None), NullableOr(filter, None)))
    case _ => Failed
  }

  /** `Operation` is the one member the decoded operation always has; `task`, `taskId` and
      `filter` are absent exactly when the object omits them or gives null. */
  lemma {:induction false} OperationOptionalMembers(ms: seq<(string, Json)>, newId: string, now: DateTime)
    requires ReadTaskOperation(JObject(ms), newId, now).Parsed?
    ensures var op := ReadTaskOperation(JObject(ms), newId, now).op;
      && (op.task.None? <==> Lookup(ms, "task") in {None, Some(JNull)})
      && (op.taskId.None? <==> Lookup(ms, "taskId") in {None, Some(JNull)})
      && (op.filter.None? <==> Lookup(ms, "filter") in {None, Some(JNull)})
      && (Lookup(ms, "operation").Some? && Lookup(ms, "operation").value.JString? ==>
          op.operation == Lookup(ms, "operation").value.s)
      && (Lookup(ms, "operation") in {None, Some(JNull)} ==> op.operation == "")
  {
    OperationFields(ms, newId, now);
    NullableMember(ms, "taskId");
    NullableMember(ms, "filter");
    OperationName(ms);
  }

  /** A decoded operation holds the members as their properties read them. */
  lemma OperationFields(ms: seq<(string, Json)>, newId: string, now: DateTime)
    requires ReadTaskOperation(JObject(ms), newId, now).Parsed?
    ensures !StringMember(ms, "operation").Rejected? && !StringMember(ms, "taskId").Rejected?
    ensures !StringMember(ms, "filter").Rejected? && TaskMember(ms, newId, now).Some?
    ensures ReadTaskOperation(JObject(ms), newId, now).op ==
      TaskOperation(StringOr(StringMember(ms, "operation"), ""), TaskMember(ms, newId, now).value,
        NullableOr(StringMember(ms, "taskId"), None), NullableOr(StringMember(ms, "filter"), None))
  {
  }

  /** The operation name is the string member's text, and "" when it is absent or null. */
  lemma OperationName(ms: seq<(string, Json)>)
    requires !StringMember(ms, "operation").Rejected?
    ensures Lookup(ms, "operation").Some? && Lookup(ms, "operation").value.JString? ==>
      StringOr(StringMember(ms, "operation"), "") == Lookup(ms, "operation").value.s
    ensures Lookup(ms, "operation") in {None, Some(JNull)} ==> StringOr(StringMember(ms, "operation"), "") == ""
  {
  }

  /** A member read into a nullable `string` property is null exactly when it is absent or null. */
  lemma NullableMember(ms: seq<(string, Json)>, name: string)
    requires !StringMember(ms, name).Rejected?
    ensures NullableOr(StringMember(ms, name), None).None? <==> Lookup(ms, name) in {None, Some(JNull)}
  {
  }
}

/**
 * The in-memory task store (`TaskService`): a list of task records changed in
 * place by create, update and delete, and filtered by read. Loading from and
 * saving to the tasks file are not part of this model; the constructor takes
 * the loaded list.
 */
module TaskStore {
  import opened Wrappers
  import opened Text
  import opened Calendar
  import opened TaskModels

  /** `_tasks.FirstOrDefault(t => t.Id == taskId)`, as the index of that task. */
  function FindTask(tasks: seq<TaskItem>, id: string): (r: Option<nat>)
    ensures r.Some? ==> r.value < |tasks| && tasks[r.value].id == id
    ensures r.Some? ==> forall j :: 0 <= j < r.value ==> tasks[j].id != id
    ensures r.None? <==> forall j :: 0 <= j < |tasks| ==> tasks[j].id != id
  {
    if tasks == [] then None
    else if tasks[0].id == id then Some(0)
    else match FindTask(tasks[1..], id)
      case None => None
      case Some(i) => Some(i + 1)
  }

  /** The list without its element at `i` (`List.Remove` of that element). */
  function RemoveAt<T>(s: seq<T>, i: nat): (r: seq<T>)
    requires i < |s|
    ensures |r| == |s| - 1
    ensures forall j :: 0 <= j < i ==> r[j] == s[j]
    ensures forall j :: i <= j < |r| ==> r[j] == s[j + 1]
    ensures multiset(r) + multiset{s[i]} == multiset(s)
  {
    assert s == s[..i] + [s[i]] + s[i + 1..];
    s[..i] + s[i + 1..]
  }

  lemma RemoveAtIsSubsequence<T>(s: seq<T>, i: nat)
    requires i < |s|
    ensures IsSubsequence(RemoveAt(s, i), s)
  {
    DropOneIsSubsequence(s, i);
    assert RemoveAt(s, i) == s[..i] + s[i + 1..];
  }

  /** The "overdue" test: pending, with a due date earlier than now (a null date is never earlier). */
  predicate IsOverdue(t: TaskItem, now: DateTime) {
    t.status == "pending" && t.dueDate.Some? && Before(t.dueDate.value, now)
  }

  /** The lower-cased filter, or None for a null filter (`filter?.ToLower()`). */
  function LowerFilter(filter: Option<string>): Option<string> {
    match filter
    case None => None
    case Some(f) => Some(ToLower(f))
  }

  /** Whether `ReadTasks` keeps `t` under `filter`: the three named filters select, anything else
      (null, "all", unknown words) selects everything. */
  predicate Selects(filter: Option<string>, t: TaskItem, now: DateTime) {
    var f := LowerFilter(filter);
    if f == Some("pending") then t.status == "pending"
    else if f == Some("completed") then t.status == "completed"
    else if f == Some("overdue") then IsOverdue(t, now)
    else true
  }

  /** The list `ReadTasks` returns. */
  function SelectTasks(tasks: seq<TaskItem>, filter: Option<string>, now: DateTime): (r: seq<TaskItem>)
    ensures |r| <= |tasks|
    ensures forall t :: t in r <==> t in tasks && Selects(filter, t, now)
  {
    var f := LowerFilter(filter);
    if f == Some("pending") then Filter(tasks, (t: TaskItem) => t.status == "pending")
    else if f == Some("completed") then Filter(tasks, (t: TaskItem) => t.status == "completed")
    else if f == Some("overdue") then Filter(tasks, (t: TaskItem) => IsOverdue(t, now))
    else tasks
  }

  /** The selection is an order-preserving sublist holding exactly the tasks the filter accepts;
      an unrecognised filter returns the whole list. */
  lemma SelectTasksIsSublist(tasks: seq<TaskItem>, filter: Option<string>, now: DateTime)
    ensures IsSubsequence(SelectTasks(tasks, filter, now), tasks)
    ensures forall t :: t in SelectTasks(tasks, filter, now) <==> t in tasks && Selects(filter, t, now)
    ensures LowerFilter(filter) !in {Some("pending"), Some("completed"), Some("overdue")} ==>
      SelectTasks(tasks, filter, now) == tasks
  {
    var f := LowerFilter(filter);
    if f == Some("pending") {
      FilterIsSubsequence(tasks, (t: TaskItem) => t.status == "pending");
    } else if f == Some("completed") {
      FilterIsSubsequence(tasks, (t: TaskItem) => t.status == "completed");
    } else if f == Some("overdue") {
      FilterIsSubsequence(tasks, (t: TaskItem) => IsOverdue(t, now));
    } else {
      SubsequenceRefl(tasks);
    }
  }

  /** The record after `UpdateTask` applies `updates` to it: non-empty title, priority and status and
      non-null description and due date replace the old values; completing a task that has no
      completion time stamps it with `now`. */
  function ApplyUpdate(t: TaskItem, updates: TaskItem, now: DateTime): (r: TaskItem)
    ensures r.id == t.id && r.createdAt == t.createdAt && r.dueDateString == t.dueDateString
    ensures t.completedAt.Some? ==> r.completedAt == t.completedAt
    ensures r.completedAt != t.completedAt ==> r.completedAt == Some(now) && r.status == "completed"
  {
    t.(title := if updates.title != "" then updates.title else t.title,
       description := if updates.description.Some? then updates.description else t.description,
       dueDate := if updates.dueDate.Some? then updates.dueDate else t.dueDate,
       priority := if updates.priority != "" then updates.priority else t.priority,
       status := if updates.status != "" then updates.status else t.status,
       completedAt := if updates.status == "completed" && t.completedAt.None? then Some(now) else t.completedAt)
  }

  /** An update keeps the record's identity: id, creation time and raw due-date text. */
  lemma ApplyUpdateKeepsIdentity(t: TaskItem, updates: TaskItem, now: DateTime)
    ensures var r := ApplyUpdate(t, updates, now);
      r.id == t.id && r.createdAt == t.createdAt && r.dueDateString == t.dueDateString
  {
  }

  /** The completion time is set once and never overwritten or cleared: it appears only when the
      update completes a task that had none, and then it is `now`. */
  lemma CompletionStampedOnce(t: TaskItem, updates: TaskItem, now: DateTime)
    ensures var r := ApplyUpdate(t, updates, now);
      && (t.completedAt.Some? ==> r.completedAt == t.completedAt)
      && (t.completedAt.None? ==> (r.completedAt.Some? <==> updates.status == "completed"))
      && (t.completedAt.None? && r.completedAt.Some? ==> r.completedAt == Some(now) && r.status == "completed")
  {
  }

  /** Applying the same update twice, at any two times, is the same as applying it once. */
  lemma ApplyUpdateIdempotent(t: TaskItem, updates: TaskItem, now: DateTime, later: DateTime)
    ensures ApplyUpdate(ApplyUpdate(t, updates, now), updates, later) == ApplyUpdate(t, updates, now)
  {
  }

  /** An update object deserialised from JSON that omits "priority" or "status" still carries the
      initialisers "medium" and "pending", and the update applies them. */
  lemma OmittedMembersOverwrite(t: TaskItem, ms: seq<(string, Json)>, newId: string, now: DateTime, at: DateTime)
    requires ReadTaskItem(ms, newId, now).Some?
    ensures var r := ApplyUpdate(t, ReadTaskItem(ms, newId, now).value, at);
      && (Lookup(ms, "priority") == None ==> r.priority == "medium")
      && (Lookup(ms, "status") == None ==> r.status == "pending")
  {
    ReadTaskItemDefaults(ms, newId, now);
  }

  /** The guard `task.DueDate == null && !string.IsNullOrEmpty(task.DueDate?.ToString())` in
      `CreateTask`; `render` stands for `DateTime.ToString()`. */
  predicate CreateDueDateGuard(task: TaskItem, render: DateTime -> string) {
    var text := match task.dueDate case None => None case Some(d) => Some(render(d));
    task.dueDate.None? && text != None && text != Some("")
  }

  /** The guard can never hold, so the natural-date parse it protects never runs. */
  lemma CreateDueDateGuardNeverHolds(task: TaskItem, render: DateTime -> string)
    ensures !CreateDueDateGuard(task, render)
  {
  }

  function NotFound(taskId: string): TaskResponse {
    TaskResponse(false, Some("Task with ID " + taskId + " not found"), None, None)
  }

  // ---------------------------------------------------------------------------
  // What each store operation does to the list and what it answers, as values. The methods of
  // `TaskService` below are proved to have exactly these effects.

  /** `CreateTask`: the task is appended at the end, unchanged, and returned. */
  function CreateEffect(tasks: seq<TaskItem>, task: TaskItem): (r: (seq<TaskItem>, TaskResponse))
    ensures |r.0| == |tasks| + 1 && r.0[..|tasks|] == tasks && r.0[|tasks|] == task
    ensures r.1.success && r.1.task == Some(task) && r.1.tasks == None
    ensures r.1.message == Some("Task '" + task.title + "' created successfully")
  {
    assert (tasks + [task])[..|tasks|] == tasks;
    (tasks + [task], TaskResponse(true, Some("Task '" + task.title + "' created successfully"), None, Some(task)))
  }

  /** `ReadTasks`: the list is unchanged; the answer holds the selected tasks, in list order, and
      reports how many there are. */
  function ReadEffect(tasks: seq<TaskItem>, filter: Option<string>, now: DateTime): (r: (seq<TaskItem>, TaskResponse))
    ensures r.0 == tasks
    ensures r.1.success && r.1.task == None && r.1.tasks.Some?
    ensures IsSubsequence(r.1.tasks.value, tasks)
    ensures forall t :: t in r.1.tasks.value <==> t in tasks && Selects(filter, t, now)
    ensures r.1.message == Some("Found " + NatToString(|r.1.tasks.value|) + " tasks")
  {
    SelectTasksIsSublist(tasks, filter, now);
    var selected := SelectTasks(tasks, filter, now);
    (tasks, TaskResponse(true, Some("Found " + NatToString(|selected|) + " tasks"), Some(selected), None))
  }

  /** `UpdateTask`: with no task of that id, a failure and the list unchanged; otherwise the first
      such task is updated where it stands and every other entry, and the length, stay. */
  function UpdateEffect(tasks: seq<TaskItem>, taskId: string, updates: TaskItem, now: DateTime): (r: (seq<TaskItem>, TaskResponse))
    ensures FindTask(tasks, taskId).None? ==> r == (tasks, NotFound(taskId))
    ensures FindTask(tasks, taskId).Some? ==>
      var i := FindTask(tasks, taskId).value;
      && |r.0| == |tasks|
      && (forall j | 0 <= j < |tasks| && j != i :: r.0[j] == tasks[j])
      && r.0[i] == ApplyUpdate(tasks[i], updates, now)
      && r.0[i].id == taskId && r.0[i].createdAt == tasks[i].createdAt
      && r.1 == TaskResponse(true, Some("Task '" + r.0[i].title + "' updated successfully"), None, Some(r.0[i]))
  {
    match FindTask(tasks, taskId)
    case None => (tasks, NotFound(taskId))
    case Some(i) =>
      var t := ApplyUpdate(tasks[i], updates, now);
      (tasks[i := t], TaskResponse(true, Some("Task '" + t.title + "' updated successfully"), None, Some(t)))
  }

  /** `DeleteTask`: with no task of that id, a failure and the list unchanged; otherwise exactly the
      first such task is removed and the others keep their order. */
  function DeleteEffect(tasks: seq<TaskItem>, taskId: string): (r: (seq<TaskItem>, TaskResponse))
    ensures FindTask(tasks, taskId).None? ==> r == (tasks, NotFound(taskId))
    ensures FindTask(tasks, taskId).Some? ==>
      var i := FindTask(tasks, taskId).value;
      && r.0 == tasks[..i] + tasks[i + 1..]
      && multiset(r.0) + multiset{tasks[i]} == multiset(tasks)
      && IsSubsequence(r.0, tasks)
      && r.1 == TaskResponse(true, Some("Task '" + tasks[i].title + "' deleted successfully"), None, None)
  {
    match FindTask(tasks, taskId)
    case None => (tasks, NotFound(taskId))
    case Some(i) =>
      RemoveAtIsSubsequence(tasks, i);
      (RemoveAt(tasks, i), TaskResponse(true, Some("Task '" + tasks[i].title + "' deleted successfully"), None, None))
  }

  class TaskService {
    var tasks: seq<TaskItem>

    /** The service over the list `LoadTasks` produced. */
    constructor (loaded: seq<TaskItem>)
      ensures tasks == loaded
    {
      tasks := loaded;
    }

    /** Appends the task, unchanged (its due-date guard never fires), and returns it. */
    method CreateTask(task: TaskItem) returns (r: TaskResponse)
      modifies this
      ensures (tasks, r) == CreateEffect(old(tasks), task)
    {
      CreateDueDateGuardNeverHolds(task, _ => "");
      tasks := tasks + [task];
      r := TaskResponse(true, Some("Task '" + task.title + "' created successfully"), None, Some(task));
    }

    /** Lists the tasks the filter selects, changing nothing. */
    method ReadTasks(filter: Option<string>, now: DateTime) returns (r: TaskResponse)
      ensures r == ReadEffect(tasks, filter, now).1
    {
      var f := LowerFilter(filter);
      var filtered;
      if f == Some("pending") {
        filtered := Filter(tasks, (t: TaskItem) => t.status == "pending");
      } else if f == Some("completed") {
        filtered := Filter(tasks, (t: TaskItem) => t.status == "completed");
      } else if f == Some("overdue") {
        filtered := Filter(tasks, (t: TaskItem) => IsOverdue(t, now));
      } else {
        filtered := tasks;
      }
      r := TaskResponse(true, Some("Found " + NatToString(|filtered|) + " tasks"), Some(filtered), None);
    }

    /** Updates the first task with the id in place; with no such task, fails and changes nothing. */
    method UpdateTask(taskId: string, updates: TaskItem, now: DateTime) returns (r: TaskResponse)
      modifies this
      ensures (tasks, r) == UpdateEffect(old(tasks), taskId, updates, now)
    {
      var found := FindTask(tasks, taskId);
      if found.None? {
        return NotFound(taskId);
      }
      var i := found.value;
      var task := tasks[i];
      if updates.title != "" { task := task.(title := updates.title); }
      if updates.description.Some? { task := task.(description := updates.description); }
      if updates.dueDate.Some? { task := task.(dueDate := updates.dueDate); }
      if updates.priority != "" { task := task.(priority := updates.priority); }
      if updates.status != "" {
        task := task.(status := updates.status);
        if updates.status == "completed" && task.completedAt.None? {
          task := task.(completedAt := Some(now));
        }
      }
      tasks := tasks[i := task];
      r := TaskResponse(true, Some("Task '" + task.title + "' updated successfully"), None, Some(task));
    }

    /** Removes the first task with the id; with no such task, fails and changes nothing. */
    method DeleteTask(taskId: string) returns (r: TaskResponse)
      modifies this
      ensures (tasks, r) == DeleteEffect(old(tasks), taskId)
    {
      var found := FindTask(tasks, taskId);
      if found.None? {
        return NotFound(taskId);
      }
      var task := tasks[found.value];
      tasks := RemoveAt(tasks, found.value);
      r := TaskResponse(true, Some("Task '" + task.title + "' deleted successfully"), None, None);
    }
  }
}

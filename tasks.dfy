// The tasks page: the toggle between pending and completed, the list
// updates after the backend answers, and the summary counts.

module Tasks {
  import opened Types

  /** `task.status === 'completed' ? 'pending' : 'completed'`. */
  function ToggledStatus(s: TaskStatus): (r: TaskStatus)
    ensures r == Pending <==> s == Completed
    ensures r == Completed <==> s != Completed
    ensures r != InProgress
  {
    if s == Completed then Pending else Completed
  }

  /** Toggling twice restores a pending or completed task; a task in progress ends up pending. */
  lemma ToggleTwice(s: TaskStatus)
    ensures s != InProgress ==> ToggledStatus(ToggledStatus(s)) == s
    ensures s == InProgress ==> ToggledStatus(ToggledStatus(s)) == Pending
  {
  }

  /**
   * `prev.map(t => t.id === id ? { ...t, status } : t)`: the same update the
   * lead lists make, here over tasks.
   */
  function SetTaskStatus(tasks: seq<Task>, id: string, status: TaskStatus): (r: seq<Task>)
    ensures |r| == |tasks|
    ensures forall i :: 0 <= i < |r| ==> r[i].id == tasks[i].id
  {
    if tasks == [] then []
    else [if tasks[0].id == id then tasks[0].(status := status) else tasks[0]] + SetTaskStatus(tasks[1..], id, status)
  }

  /** Only the tasks with that id change, and only in their status. */
  lemma {:induction false} SetTaskStatusOnlyStatus(tasks: seq<Task>, id: string, status: TaskStatus)
    ensures forall i :: 0 <= i < |tasks| ==>
      SetTaskStatus(tasks, id, status)[i] == (if tasks[i].id == id then tasks[i].(status := status) else tasks[i])
  {
    if tasks != [] {
      var rest := SetTaskStatus(tasks[1..], id, status);
      SetTaskStatusOnlyStatus(tasks[1..], id, status);
      assert SetTaskStatus(tasks, id, status)[1..] == rest;
    }
  }

  /** `prev.filter(t => t.id !== id)`. */
  function DropTask(tasks: seq<Task>, id: string): (r: seq<Task>)
    ensures forall t :: t in r <==> t in tasks && t.id != id
    ensures |r| <= |tasks|
  {
    if tasks == [] then []
    else (if tasks[0].id != id then [tasks[0]] else []) + DropTask(tasks[1..], id)
  }

  /** The removal keeps the other tasks in their order: dropping an absent id changes nothing. */
  lemma {:induction false} DropTaskAbsent(tasks: seq<Task>, id: string)
    requires forall i :: 0 <= i < |tasks| ==> tasks[i].id != id
    ensures DropTask(tasks, id) == tasks
  {
    if tasks != [] {
      DropTaskAbsent(tasks[1..], id);
      assert tasks == [tasks[0]] + tasks[1..];
    }
  }

  /** How many tasks have status `s`. */
  function CountTasks(tasks: seq<Task>, s: TaskStatus): (n: nat)
    ensures n <= |tasks|
  {
    if tasks == [] then 0
    else (if tasks[0].status == s then 1 else 0) + CountTasks(tasks[1..], s)
  }

  /** The pending and completed counts together never exceed the number of tasks. */
  lemma {:induction false} SummaryCountsBound(tasks: seq<Task>)
    ensures CountTasks(tasks, Pending) + CountTasks(tasks, Completed) <= |tasks|
    ensures CountTasks(tasks, Pending) + CountTasks(tasks, Completed) + CountTasks(tasks, InProgress) == |tasks|
  {
    if tasks != [] {
      SummaryCountsBound(tasks[1..]);
    }
  }

  /** The divisor of the progress bar, `tasks.length || 1`. */
  function ProgressDenominator(n: nat): (d: nat)
    ensures d > 0
    ensures n > 0 ==> d == n
  {
    if n == 0 then 1 else n
  }

  /** The progress bar's fraction `completed / (tasks.length || 1)` lies in 0..1. */
  lemma ProgressInRange(tasks: seq<Task>)
    ensures 0 < ProgressDenominator(|tasks|)
    ensures CountTasks(tasks, Completed) <= ProgressDenominator(|tasks|)
  {
    SummaryCountsBound(tasks);
  }

  /** The new-task form. */
  datatype TaskForm = TaskForm(title: string, description: string, dueDate: string, priority: Priority)

  const EmptyTaskForm := TaskForm("", "", "", Medium)

  /** The row `handleAddTask` asks the backend to insert: the form, the user and status `pending`. */
  datatype TaskInsert = TaskInsert(
    title: string, description: string, dueDate: string, priority: Priority,
    userId: string, status: TaskStatus)

  function InsertRequest(form: TaskForm, userId: string): (r: TaskInsert)
    ensures r.status == Pending && r.userId == userId
    ensures r.title == form.title && r.description == form.description
    ensures r.dueDate == form.dueDate && r.priority == form.priority
  {
    TaskInsert(form.title, form.description, form.dueDate, form.priority, userId, Pending)
  }

  /** The page's state: the task list and the new-task form. */
  class TasksPage {
    var tasks: seq<Task>
    var form: TaskForm

    constructor ()
      ensures tasks == [] && form == EmptyTaskForm
    {
      tasks := [];
      form := EmptyTaskForm;
    }

    /**
     * `handleAddTask`: without a user nothing is sent. Otherwise the insert
     * request is sent; when the backend returns the inserted row it is
     * appended and the form is reset.
     */
    method HandleAddTask(user: Option<string>, inserted: Option<Task>) returns (request: Option<TaskInsert>)
      modifies this
      ensures user.None? ==> request.None? && tasks == old(tasks) && form == old(form)
      ensures user.Some? ==> request == Some(InsertRequest(old(form), user.value))
      ensures user.Some? && inserted.Some? ==> tasks == old(tasks) + [inserted.value] && form == EmptyTaskForm
      ensures user.Some? && inserted.None? ==> tasks == old(tasks) && form == old(form)
    {
      if user.None? {
        return None;
      }
      request := Some(InsertRequest(form, user.value));
      if inserted.Some? {
        tasks := tasks + [inserted.value];
        form := EmptyTaskForm;
      }
    }

    /**
     * `toggleTaskStatus`: the new status is worked out from the task passed
     * in and sent to the backend; on success every task with that id takes it.
     */
    method ToggleTaskStatus(task: Task, remoteFailed: bool) returns (sent: TaskStatus)
      modifies this`tasks
      ensures sent == ToggledStatus(task.status)
      ensures remoteFailed ==> tasks == old(tasks)
      ensures !remoteFailed ==> tasks == SetTaskStatus(old(tasks), task.id, sent)
    {
      sent := ToggledStatus(task.status);
      if !remoteFailed {
        tasks := SetTaskStatus(tasks, task.id, sent);
      }
    }

    /** `deleteTask`: on success the tasks with that id leave the list. */
    method DeleteTask(id: string, remoteFailed: bool)
      modifies this`tasks
      ensures remoteFailed ==> tasks == old(tasks)
      ensures !remoteFailed ==> tasks == DropTask(old(tasks), id)
      ensures !remoteFailed ==> forall t :: t in tasks ==> t.id != id
    {
      if !remoteFailed {
        tasks := DropTask(tasks, id);
      }
    }
  }

  /** Toggling a completed task that is in the list makes it pending there, and leaves the others alone. */
  method ToggleCompleted(page: TasksPage, k: int)
    requires 0 <= k < |page.tasks| && page.tasks[k].status == Completed
    modifies page`tasks
    ensures |page.tasks| == |old(page.tasks)| && page.tasks[k] == old(page.tasks[k]).(status := Pending)
    ensures forall i :: 0 <= i < |page.tasks| && old(page.tasks[i]).id != old(page.tasks[k]).id ==>
      page.tasks[i] == old(page.tasks[i])
  {
    var _ := page.ToggleTaskStatus(page.tasks[k], false);
    SetTaskStatusOnlyStatus(old(page.tasks), old(page.tasks[k]).id, Pending);
  }
}

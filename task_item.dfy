/** One task card (src/TaskItem.js): the facts it derives from a task, which
    set its style and badges, and the status change it sends. */
module TaskItem {
  import opened Wrappers
  import opened Api
  import opened Tasks
  import Text

  /** `getPriorityClass`: the card's priority class, for the three known
      priorities only. */
  function PriorityClass(priority: string): (r: string)
    ensures r != "" <==> priority == "high" || priority == "medium" || priority == "low"
    ensures r != "" ==> r == "priority-" + priority
  {
    match priority
    case "high" => "priority-high"
    case "medium" => "priority-medium"
    case "low" => "priority-low"
    case _ => ""
  }

  /** `formatDate`: the placeholder for a missing date, otherwise the date in
      the browser's locale, which stays abstract here. */
  datatype DueText = NoDueDate | LocaleDate(time: int)

  function FormatDueDate(due: Option<Date>): (r: DueText)
    ensures r == NoDueDate <==> due.None?
    ensures r.LocaleDate? ==> r.time == due.value.time
  {
    match due
    case None => NoDueDate
    case Some(d) => LocaleDate(d.time)
  }

  /** `isOverdue`: a task with a due date, not completed, due before `now`. */
  predicate IsOverdue(task: Task, now: int) {
    task.dueDate.Some? && task.status != "completed" && task.dueDate.value.time < now
  }

  /** The date badge: "Overdue" in red, or the due date in grey. */
  datatype DateBadge = OverdueBadge | DueBadge(text: DueText)

  function DateBadgeOf(task: Task, now: int): (b: DateBadge)
    ensures b == OverdueBadge <==> IsOverdue(task, now)
    ensures b.DueBadge? && task.dueDate.Some? ==>
      task.status == "completed" || task.dueDate.value.time >= now
    ensures b.DueBadge? ==> b == DueBadge(FormatDueDate(task.dueDate))
  {
    if IsOverdue(task, now) then OverdueBadge else DueBadge(FormatDueDate(task.dueDate))
  }

  /** A completed task never shows the overdue badge, and a task without a
      due date shows the placeholder. */
  lemma CompletedNeverOverdue(task: Task, now: int)
    ensures task.status == "completed" ==> DateBadgeOf(task, now) == DueBadge(FormatDueDate(task.dueDate))
    ensures task.dueDate.None? ==> DateBadgeOf(task, now) == DueBadge(NoDueDate)
  {
  }

  /** The status badge's colour. */
  function StatusBadge(status: string): (colour: string)
    ensures colour == "success" <==> status == "completed"
    ensures colour == "warning" <==> status == "in-progress"
    ensures colour == "info" <==> status != "completed" && status != "in-progress"
  {
    if status == "completed" then "success"
    else if status == "in-progress" then "warning"
    else "info"
  }

  /** The status badge's text: `status.replace('-', ' ')`, which replaces
      only the first hyphen. */
  function StatusLabel(status: string): (r: string)
    ensures '-' !in status ==> r == status
    ensures forall i :: 0 <= i < |status| && status[i] == '-' && '-' !in status[..i] ==>
      r == status[..i] + " " + status[i + 1..]
  {
    if '-' !in status then
      Text.ReplaceFirstAbsent(status, '-', ' ');
      Text.ReplaceFirst(status, '-', ' ')
    else
      forall i | 0 <= i < |status| && status[i] == '-' && '-' !in status[..i]
        ensures Text.ReplaceFirst(status, '-', ' ') == status[..i] + " " + status[i + 1..]
      {
        Text.ReplaceFirstAt(status, '-', ' ', i);
      }
      Text.ReplaceFirst(status, '-', ' ')
  }

  /** The known statuses read as "pending", "in progress" and "completed";
      a second hyphen survives. */
  lemma StatusLabels()
    ensures StatusLabel("in-progress") == "in progress"
    ensures StatusLabel("pending") == "pending"
    ensures StatusLabel("a-b-c") == "a b-c"
  {
    var s := "in-progress";
    assert s[2] == '-' && s[..2] == "in";
    assert s[..2] + " " + s[3..] == "in progress";
    var t := "a-b-c";
    assert t[1] == '-' && t[..1] == "a";
    assert t[..1] + " " + t[2..] == "a b-c";
  }

  /** The request `handleStatusChange` sends: the task's id and the new status only. */
  datatype StatusUpdate = StatusUpdate(id: string, status: string)

  /** The card's own state. `onUpdate` is optional; calling it when absent
      throws inside the handler, which the handler's catch swallows. */
  class TaskCard {
    const task: Task
    const hasOnUpdate: bool
    var updating: bool

    constructor (task: Task, hasOnUpdate: bool)
      ensures this.task == task && this.hasOnUpdate == hasOnUpdate && !updating
    {
      this.task := task;
      this.hasOnUpdate := hasOnUpdate;
      updating := false;
    }

    /** `handleStatusChange`: send `{status}`; the parent's refresh runs only
        after a successful update; `updating` ends false either way. */
    method HandleStatusChange(newStatus: string, response: Outcome<()>)
      returns (request: StatusUpdate, onUpdateCalled: bool)
      modifies this
      ensures request == StatusUpdate(task.id, newStatus)
      ensures onUpdateCalled <==> response.Success? && hasOnUpdate
      ensures !updating
    {
      updating := true;
      request := StatusUpdate(task.id, newStatus);
      onUpdateCalled := response.Success? && hasOnUpdate;
      updating := false;
    }
  }

  /** A failed status change refreshes nothing and leaves the card usable. */
  method FailedStatusChange(task: Task, newStatus: string, error: ApiError)
    returns (refreshed: bool, updating: bool)
    ensures !refreshed && !updating
  {
    var card := new TaskCard(task, true);
    var _, called := card.HandleStatusChange(newStatus, Failure(error));
    refreshed := called;
    updating := card.updating;
  }
}

/** The task records the server sends and the components hold. */
module Tasks {
  import opened Wrappers
  import Text

  /** A date field as the server serialises it: the ISO 8601 text produced by
      `toISOString` and the instant it denotes, in milliseconds since the epoch
      (what `new Date(text)` parses it to). */
  datatype Date = Date(iso: string, time: int)

  /** One uploaded file attached to a task. */
  datatype Attachment = Attachment(filename: string, originalName: string, path: string)

  /** A task. Optional fields are `None` when the server leaves them out or
      sends a falsy value; `status` and `priority` are the raw strings sent. */
  datatype Task = Task(
    id: string,
    title: string,
    description: Option<string>,
    status: string,
    priority: string,
    dueDate: Option<Date>,
    createdAt: int,
    sharedWith: seq<string>,
    attachments: Option<seq<Attachment>>)

  /** The value a date input shows for a task's due date:
      `new Date(d).toISOString().split('T')[0]`, the calendar-date part, or
      the empty string when there is no due date. */
  function DateInputValue(due: Option<Date>): (r: string)
    ensures due.None? ==> r == ""
    ensures due.Some? ==> r <= due.value.iso && 'T' !in r
    ensures due.Some? && 'T' in due.value.iso ==> due.value.iso[|r|] == 'T'
    ensures due.Some? && 'T' !in due.value.iso ==> r == due.value.iso
  {
    if due.Some? then Text.BeforeT(due.value.iso) else ""
  }

  /** One page of tasks from `GET tasks(filter, page, limit)`. */
  datatype TaskPage = TaskPage(tasks: seq<Task>, totalPages: int, currentPage: int, total: int)
}

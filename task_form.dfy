/** The create/edit dialog (src/component/Taskform.js): the form's fields,
    the list of uploaded attachments, and the save request. */
module TaskForm {
  import opened Wrappers
  import opened Api
  import opened Seqs
  import opened Tasks

  datatype FormData = FormData(title: string, description: string, status: string, priority: string, dueDate: string)

  const DefaultForm := FormData("", "", "pending", "medium", "")

  /** The inputs of the form, by their `name` attribute. */
  datatype Field = Title | Description | Status | Priority | DueDate

  function Get(form: FormData, field: Field): string {
    match field
    case Title => form.title
    case Description => form.description
    case Status => form.status
    case Priority => form.priority
    case DueDate => form.dueDate
  }

  /** `{ ...formData, [e.target.name]: e.target.value }` */
  function With(form: FormData, field: Field, value: string): (r: FormData)
    ensures Get(r, field) == value
    ensures forall other :: other != field ==> Get(r, other) == Get(form, other)
  {
    match field
    case Title => form.(title := value)
    case Description => form.(description := value)
    case Status => form.(status := value)
    case Priority => form.(priority := value)
    case DueDate => form.(dueDate := value)
  }

  /** Writing back what a field holds changes nothing; the last write to a
      field wins. */
  lemma WithGet(form: FormData, field: Field, a: string, b: string)
    ensures With(form, field, Get(form, field)) == form
    ensures With(With(form, field, a), field, b) == With(form, field, b)
  {
    match field
    case Title =>
    case Description =>
    case Status =>
    case Priority =>
    case DueDate =>
  }

  /** The form the dialog shows for an existing task. */
  function FromTask(task: Task): (form: FormData)
    ensures form.title == task.title && form.status == task.status && form.priority == task.priority
    ensures task.description.Some? ==> form.description == task.description.value
    ensures task.description.None? ==> form.description == ""
    ensures form.dueDate == DateInputValue(task.dueDate)
  {
    FormData(task.title, task.description.GetOr(""), task.status, task.priority, DateInputValue(task.dueDate))
  }

  /** The elements of `s` at positions other than `index`, counting
      positions from `start`. */
  function SkipIndex<T>(s: seq<T>, index: int, start: int): (r: seq<T>)
    decreases |s|
  {
    if s == [] then []
    else (if start == index then [] else [s[0]]) + SkipIndex(s[1..], index, start + 1)
  }

  /** `prev.filter((_, i) => i !== index)` */
  function RemoveAt<T>(s: seq<T>, index: int): seq<T> {
    SkipIndex(s, index, 0)
  }

  lemma {:induction false} SkipIndexOutside<T>(s: seq<T>, index: int, start: int)
    requires !(start <= index < start + |s|)
    ensures SkipIndex(s, index, start) == s
    decreases |s|
  {
    if s != [] {
      SkipIndexOutside(s[1..], index, start + 1);
      assert s == [s[0]] + s[1..];
    }
  }

  lemma {:induction false} SkipIndexInside<T>(s: seq<T>, index: int, start: int)
    requires start <= index < start + |s|
    ensures SkipIndex(s, index, start) == s[..index - start] + s[index - start + 1..]
    decreases |s|
  {
    var k := index - start;
    if k == 0 {
      SkipIndexOutside(s[1..], index, start + 1);
    } else {
      var tail := s[1..];
      assert SkipIndex(s, index, start) == [s[0]] + SkipIndex(tail, index, start + 1);
      SkipIndexInside(tail, index, start + 1);
      assert s[..k] == [s[0]] + tail[..k - 1];
      assert s[k + 1..] == tail[k..];
    }
  }

  /** Removing an index in range drops exactly that element and keeps the
      others in order; an index out of range removes nothing. */
  lemma RemoveAtSpec<T>(s: seq<T>, index: int)
    ensures 0 <= index < |s| ==> RemoveAt(s, index) == s[..index] + s[index + 1..]
    ensures 0 <= index < |s| ==> |RemoveAt(s, index)| == |s| - 1
    ensures !(0 <= index < |s|) ==> RemoveAt(s, index) == s
  {
    if 0 <= index < |s| {
      SkipIndexInside(s, index, 0);
    } else {
      SkipIndexOutside(s, index, 0);
    }
  }

  /** Removing the attachment just appended gives back the list before it. */
  lemma RemoveLastAppended<T>(s: seq<T>, x: T)
    ensures RemoveAt(s + [x], |s|) == s
  {
    RemoveAtSpec(s + [x], |s|);
    assert (s + [x])[..|s|] == s;
  }

  /** The body of a save request: the form's fields and the attachments. */
  datatype Payload = Payload(form: FormData, attachments: seq<Attachment>)

  /** `updateTask(task._id, payload)` for an existing task, `createTask(payload)` otherwise. */
  datatype SaveRequest = Update(id: string, payload: Payload) | Create(payload: Payload)

  /** What the handlers make happen besides the state change. */
  datatype FormEvent = OnSave | Alert(message: string)

  /** The dialog's state; `task` is the task being edited, if any. */
  class TaskFormModal {
    const task: Option<Task>
    var formData: FormData
    var attachments: seq<Attachment>
    var uploading: bool
    var loading: bool

    constructor (task: Option<Task>)
      ensures this.task == task
      ensures formData == DefaultForm && attachments == [] && !uploading && !loading
    {
      this.task := task;
      formData := DefaultForm;
      attachments := [];
      uploading := false;
      loading := false;
    }

    /** The effect run when `task` is set: load its fields and attachments,
        or keep the defaults when there is no task. */
    method SyncFromTask()
      modifies this
      ensures task.Some? ==> formData == FromTask(task.value) && attachments == task.value.attachments.GetOr([])
      ensures task.None? ==> formData == old(formData) && attachments == old(attachments)
      ensures uploading == old(uploading) && loading == old(loading)
    {
      if task.Some? {
        formData := FromTask(task.value);
        attachments := task.value.attachments.GetOr([]);
      }
    }

    /** `handleChange` */
    method HandleChange(field: Field, value: string)
      modifies this`formData
      ensures formData == With(old(formData), field, value)
    {
      formData := With(formData, field, value);
    }

    /** `handleFileUpload`: without a file nothing happens; otherwise the
        file is uploaded and, on success, its record is appended; on failure
        an alert. `uploading` ends false. */
    method HandleFileUpload(hasFile: bool, response: Outcome<Attachment>)
      returns (uploaded: bool, alert: Option<string>)
      modifies this
      ensures uploaded <==> hasFile
      ensures alert.Some? <==> hasFile && response.Failure?
      ensures alert.Some? ==> alert.value == "Failed to upload file"
      ensures hasFile && response.Success? ==> attachments == old(attachments) + [response.value]
      ensures !(hasFile && response.Success?) ==> attachments == old(attachments)
      ensures !hasFile ==> uploading == old(uploading)
      ensures hasFile ==> !uploading
      ensures formData == old(formData) && loading == old(loading)
    {
      uploaded, alert := hasFile, None;
      if !hasFile {
        return;
      }
      uploading := true;
      match response {
        case Success(file) =>
          attachments := attachments + [file];
        case Failure(_) =>
          alert := Some("Failed to upload file");
      }
      uploading := false;
    }

    /** `removeAttachment` */
    method RemoveAttachment(index: int)
      modifies this`attachments
      ensures attachments == RemoveAt(old(attachments), index)
    {
      attachments := RemoveAt(attachments, index);
    }

    /** `handleSubmit`: update the task being edited or create a new one,
        with the form and the attachments; the parent's save callback runs
        only on success, an alert otherwise. The form is left as it is. */
    method HandleSubmit(response: Outcome<()>) returns (request: SaveRequest, events: seq<FormEvent>)
      modifies this`loading
      ensures task.Some? ==> request == Update(task.value.id, Payload(formData, attachments))
      ensures task.None? ==> request == Create(Payload(formData, attachments))
      ensures response.Success? ==> events == [OnSave]
      ensures response.Failure? ==> events == [Alert("Failed to save task")]
      ensures !loading
    {
      loading := true;
      var payload := Payload(formData, attachments);
      if task.Some? {
        request := Update(task.value.id, payload);
      } else {
        request := Create(payload);
      }
      if response.Success? {
        events := [OnSave];
      } else {
        events := [Alert("Failed to save task")];
      }
      loading := false;
    }
  }

  /** Editing a task, uploading a file and removing it again saves the
      task's own attachments. */
  method UploadThenRemove(task: Task, file: Attachment) returns (request: SaveRequest, events: seq<FormEvent>)
    ensures events == [OnSave]
    ensures request == Update(task.id, Payload(FromTask(task), task.attachments.GetOr([])))
  {
    var modal := new TaskFormModal(Some(task));
    modal.SyncFromTask();
    var _, _ := modal.HandleFileUpload(true, Success(file));
    RemoveLastAppended(task.attachments.GetOr([]), file);
    modal.RemoveAttachment(|modal.attachments| - 1);
    request, events := modal.HandleSubmit(Success(()));
  }
}

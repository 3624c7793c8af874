/** The single-page task manager (src/App.js): the task list, the task form,
    the edit target and the error message, and the filtered, sorted view. */
module App {
  import opened Wrappers
  import opened Api
  import opened Seqs
  import opened Tasks
  import Text

  /** The form's fields, all strings as the inputs hold them. */
  datatype Form = Form(title: string, description: string, status: string, dueDate: string)

  const EmptyForm := Form("", "", "Pending", "")

  /** The statuses this page accepts; the other components spell them differently. */
  const Statuses: seq<string> := ["Pending", "In Progress", "Completed"]

  /** The inputs of the form, by their `name` attribute. */
  datatype FormField = TitleField | DescriptionField | StatusField | DueDateField

  /** The request `handleSubmit` sends. */
  datatype SaveRequest = Put(id: string, form: Form) | Post(form: Form)

  /** `localStorage.getItem("token")` is truthy. */
  predicate HasToken(token: Option<string>) {
    token.Some? && token.value != ""
  }

  /** `if (editId)`: an edit target is set and its id is not the empty string. */
  predicate Editing(editId: Option<string>) {
    editId.Some? && editId.value != ""
  }

  /** `setForm({ ...form, [name]: value })` */
  function WithField(form: Form, field: FormField, value: string): (r: Form)
    ensures FieldOf(r, field) == value
    ensures forall other :: other != field ==> FieldOf(r, other) == FieldOf(form, other)
  {
    match field
    case TitleField => form.(title := value)
    case DescriptionField => form.(description := value)
    case StatusField => form.(status := value)
    case DueDateField => form.(dueDate := value)
  }

  function FieldOf(form: Form, field: FormField): string {
    match field
    case TitleField => form.title
    case DescriptionField => form.description
    case StatusField => form.status
    case DueDateField => form.dueDate
  }

  /** The checks `handleSubmit` makes before any request, in order: the
      message it shows, or `None` when it goes on to send. */
  function Validate(form: Form, token: Option<string>): (error: Option<string>)
    ensures error == Some("Title is required.") <==> Text.Trim(form.title) == []
    ensures error == Some("Invalid status value.") <==>
      Text.Trim(form.title) != [] && form.status !in Statuses
    ensures error == Some("You must be logged in to save tasks.") <==>
      Text.Trim(form.title) != [] && form.status in Statuses && !HasToken(token)
    ensures error.None? <==>
      !Text.IsBlank(form.title) && form.status in Statuses && HasToken(token)
  {
    Text.TrimEmptyIffBlank(form.title);
    if Text.Trim(form.title) == [] then Some("Title is required.")
    else if form.status !in Statuses then Some("Invalid status value.")
    else if !HasToken(token) then Some("You must be logged in to save tasks.")
    else None
  }

  /** The message `handleSubmit` shows when the save request fails: the
      first validation message from the server, or a generic one. When the
      server sends an empty list of messages, reading the first one throws
      inside the handler and the message stays cleared. */
  function SaveErrorMessage(error: ApiError): (msg: string)
    ensures error.fieldErrors.NoFieldErrors? ==> msg == "Error saving task."
    ensures error.fieldErrors.FieldErrors? && error.fieldErrors.messages != [] ==>
      msg == error.fieldErrors.messages[0]
    ensures error.fieldErrors.FieldErrors? && error.fieldErrors.messages == [] ==> msg == ""
  {
    match error.fieldErrors
    case NoFieldErrors => "Error saving task."
    case FieldErrors(messages) => if messages != [] then messages[0] else ""
  }

  /** `tasks.map(task => task._id === id ? updated : task)` */
  function ReplaceById(tasks: seq<Task>, id: string, updated: Task): (r: seq<Task>)
    ensures |r| == |tasks|
    ensures forall i :: 0 <= i < |tasks| ==> r[i] == if tasks[i].id == id then updated else tasks[i]
  {
    Map(tasks, (t: Task) => if t.id == id then updated else t)
  }

  /** When the server returns the task under the id it was saved with, the
      replacement keeps every position's id, and replaying it changes nothing. */
  lemma ReplaceByIdStable(tasks: seq<Task>, id: string, updated: Task)
    requires updated.id == id
    ensures forall i :: 0 <= i < |tasks| ==> ReplaceById(tasks, id, updated)[i].id == tasks[i].id
    ensures ReplaceById(ReplaceById(tasks, id, updated), id, updated) == ReplaceById(tasks, id, updated)
  {
    var once := ReplaceById(tasks, id, updated);
    assert forall i :: 0 <= i < |once| ==> ReplaceById(once, id, updated)[i] == once[i];
  }

  /** `tasks.filter(task => task._id !== id)` */
  function RemoveById(tasks: seq<Task>, id: string): (r: seq<Task>)
    ensures forall t :: t in r <==> t in tasks && t.id != id
    ensures forall t :: multiset(r)[t] == if t.id != id then multiset(tasks)[t] else 0
    ensures |r| == |tasks| - Count(tasks, (t: Task) => t.id == id)
    ensures Subsequence(r, tasks)
  {
    var p := (t: Task) => t.id != id;
    forall t ensures t in Filter(tasks, p) <==> t in tasks && t.id != id {
      FilterMembership(tasks, p, t);
    }
    forall t ensures multiset(Filter(tasks, p))[t] == if t.id != id then multiset(tasks)[t] else 0 {
      FilterMultiplicity(tasks, p, t);
    }
    CountComplement(tasks, p, (t: Task) => t.id == id);
    FilterIsSubsequence(tasks, p);
    Filter(tasks, p)
  }

  /** The form `editTask` fills from a task. */
  function FormFromTask(task: Task): (form: Form)
    ensures form.title == task.title && form.status == task.status
    ensures task.description.Some? ==> form.description == task.description.value
    ensures task.description.None? ==> form.description == ""
    ensures form.dueDate == DateInputValue(task.dueDate)
  {
    Form(task.title, task.description.GetOr(""), task.status, DateInputValue(task.dueDate))
  }

  /** The projection's filter: everything under "All", otherwise the tasks
      whose status is exactly the filter. */
  function Visible(tasks: seq<Task>, filter: string): (r: seq<Task>)
    ensures forall t :: t in r <==> t in tasks && (filter == "All" || t.status == filter)
    ensures forall t ::
      multiset(r)[t] == if filter == "All" || t.status == filter then multiset(tasks)[t] else 0
    ensures |r| == |tasks| - Count(tasks, (t: Task) => filter != "All" && t.status != filter)
    ensures Subsequence(r, tasks)
    ensures filter == "All" ==> r == tasks
  {
    var dropped := (t: Task) => filter != "All" && t.status != filter;
    if filter == "All" then
      FilterAll(tasks, _ => true);
      FilterIsSubsequence(tasks, _ => true);
      CountComplement(tasks, _ => true, dropped);
      tasks
    else
      var p := (t: Task) => t.status == filter;
      forall t ensures t in Filter(tasks, p) <==> t in tasks && t.status == filter {
        FilterMembership(tasks, p, t);
      }
      forall t ensures multiset(Filter(tasks, p))[t] == if t.status == filter then multiset(tasks)[t] else 0 {
        FilterMultiplicity(tasks, p, t);
      }
      CountComplement(tasks, p, dropped);
      FilterIsSubsequence(tasks, p);
      Filter(tasks, p)
  }

  function DueOrEpoch(t: Task): int {
    match t.dueDate
    case Some(d) => d.time
    case None => 0
  }

  /** The sort select's values; any other value compares everything equal. */
  datatype SortMode = CreatedAtAsc | CreatedAtDesc | DueDateAsc | DueDateDesc | Unsorted

  function ModeOf(sort: string): SortMode {
    if sort == "createdAtAsc" then CreatedAtAsc
    else if sort == "createdAtDesc" then CreatedAtDesc
    else if sort == "dueDateAsc" then DueDateAsc
    else if sort == "dueDateDesc" then DueDateDesc
    else Unsorted
  }

  /** The sort comparator. A result of NaN, which `new Date(Infinity)` gives
      in "dueDateAsc" when a task has no due date, is read as 0 (equal) by
      the sort, as ECMA-262 SortCompare prescribes; so 0 stands for it here. */
  function Compare(mode: SortMode, a: Task, b: Task): int {
    match mode
    case CreatedAtAsc => a.createdAt - b.createdAt
    case CreatedAtDesc => b.createdAt - a.createdAt
    case DueDateAsc =>
      if a.dueDate.Some? && b.dueDate.Some? then a.dueDate.value.time - b.dueDate.value.time else 0
    case DueDateDesc => DueOrEpoch(b) - DueOrEpoch(a)
    case Unsorted => 0
  }

  /** The number each sort mode orders by. */
  function Key(mode: SortMode, t: Task): int {
    match mode
    case CreatedAtAsc => t.createdAt
    case CreatedAtDesc => -t.createdAt
    case DueDateAsc => DueOrEpoch(t)
    case DueDateDesc => -DueOrEpoch(t)
    case Unsorted => 0
  }

  /** The comparator is a difference of keys for this task: always, except
      in "dueDateAsc" for a task without a due date. */
  predicate Comparable(mode: SortMode, t: Task) {
    mode != DueDateAsc || t.dueDate.Some?
  }

  predicate SortedByKey(s: seq<Task>, mode: SortMode) {
    forall i, j :: 0 <= i < j < |s| ==> Key(mode, s[i]) <= Key(mode, s[j])
  }

  /** Between comparable tasks the comparator's sign is the keys' order. */
  lemma CompareIsKeyDifference(mode: SortMode, a: Task, b: Task)
    requires Comparable(mode, a) && Comparable(mode, b)
    ensures Compare(mode, a, b) == Key(mode, a) - Key(mode, b)
  {
  }

  /** Put `x` after the last element of the sorted `p` that does not
      compare greater than it. */
  function Insert(p: seq<Task>, x: Task, mode: SortMode): seq<Task>
    decreases |p|
  {
    if p == [] || Compare(mode, p[|p| - 1], x) <= 0 then p + [x]
    else Insert(p[..|p| - 1], x, mode) + [p[|p| - 1]]
  }

  /** `Array.prototype.sort` with the comparator of `mode`, as a stable
      insertion sort (one of the orders the language standard admits). */
  function SortTasks(s: seq<Task>, mode: SortMode): seq<Task>
    decreases |s|
  {
    if s == [] then [] else Insert(SortTasks(s[..|s| - 1], mode), s[|s| - 1], mode)
  }

  lemma {:induction false} InsertPermutes(p: seq<Task>, x: Task, mode: SortMode)
    ensures multiset(Insert(p, x, mode)) == multiset(p) + multiset{x}
    decreases |p|
  {
    if !(p == [] || Compare(mode, p[|p| - 1], x) <= 0) {
      InsertPermutes(p[..|p| - 1], x, mode);
      assert p == p[..|p| - 1] + [p[|p| - 1]];
    }
  }

  /** The sort returns a rearrangement of its input. */
  lemma {:induction false} SortPermutes(s: seq<Task>, mode: SortMode)
    ensures multiset(SortTasks(s, mode)) == multiset(s)
    decreases |s|
  {
    if s != [] {
      SortPermutes(s[..|s| - 1], mode);
      InsertPermutes(SortTasks(s[..|s| - 1], mode), s[|s| - 1], mode);
      assert s == s[..|s| - 1] + [s[|s| - 1]];
    }
  }

  lemma {:induction false} InsertElements(p: seq<Task>, x: Task, mode: SortMode)
    ensures |Insert(p, x, mode)| == |p| + 1
    ensures forall y :: y in Insert(p, x, mode) ==> y == x || y in p
    decreases |p|
  {
    if !(p == [] || Compare(mode, p[|p| - 1], x) <= 0) {
      InsertElements(p[..|p| - 1], x, mode);
      forall y | y in p[..|p| - 1] ensures y in p {
        var k :| 0 <= k < |p| - 1 && p[..|p| - 1][k] == y;
        assert p[k] == y;
      }
    }
  }

  lemma {:induction false} InsertSorted(p: seq<Task>, x: Task, mode: SortMode)
    requires SortedByKey(p, mode)
    requires Comparable(mode, x) && forall i :: 0 <= i < |p| ==> Comparable(mode, p[i])
    ensures SortedByKey(Insert(p, x, mode), mode)
    decreases |p|
  {
    if p != [] {
      var last := p[|p| - 1];
      CompareIsKeyDifference(mode, last, x);
      var init := p[..|p| - 1];
      if Compare(mode, last, x) > 0 {
        assert SortedByKey(init, mode);
        InsertSorted(init, x, mode);
        InsertElements(init, x, mode);
        var r := Insert(init, x, mode);
        forall i | 0 <= i < |r| ensures Key(mode, r[i]) <= Key(mode, last) {
          if r[i] != x {
            assert r[i] in r;
            var k :| 0 <= k < |init| && init[k] == r[i];
            assert p[k] == r[i];
          }
        }
        assert Insert(p, x, mode) == r + [last];
      } else {
        assert Insert(p, x, mode) == p + [x];
      }
    }
  }

  /** When every task is comparable the sort orders them by the mode's key:
      oldest first for "createdAtAsc", newest first for "createdAtDesc",
      soonest first for "dueDateAsc" and latest first for "dueDateDesc",
      where a task without a due date counts as due at the epoch. */
  lemma {:induction false} SortOrders(s: seq<Task>, mode: SortMode)
    requires forall i :: 0 <= i < |s| ==> Comparable(mode, s[i])
    ensures SortedByKey(SortTasks(s, mode), mode)
    decreases |s|
  {
    if s != [] {
      var init := s[..|s| - 1];
      SortOrders(init, mode);
      SortPermutes(init, mode);
      var sorted := SortTasks(init, mode);
      forall i | 0 <= i < |sorted| ensures Comparable(mode, sorted[i]) {
        assert sorted[i] in multiset(init);
        var k :| 0 <= k < |init| && init[k] == sorted[i];
        assert s[k] == sorted[i];
      }
      InsertSorted(sorted, s[|s| - 1], mode);
    }
  }

  /** With "dueDateAsc" a task without a due date compares equal to every
      task, so it stays where it is: it is not moved after dated tasks, and
      dated tasks on either side of it are not ordered among themselves. */
  lemma MissingDueDateStaysPut(undated: Task, early: Task, late: Task)
    requires undated.dueDate.None?
    requires early.dueDate.Some? && late.dueDate.Some?
    requires early.dueDate.value.time < late.dueDate.value.time
    ensures SortTasks([undated, early], DueDateAsc) == [undated, early]
    ensures SortTasks([late, undated, early], DueDateAsc) == [late, undated, early]
  {
    assert [undated, early][..1] == [undated];
    assert SortTasks([undated], DueDateAsc) == [undated];
    assert [late, undated, early][..2] == [late, undated];
    assert [late, undated][..1] == [late];
    assert SortTasks([late], DueDateAsc) == [late];
    assert SortTasks([late, undated], DueDateAsc) == [late, undated];
  }

  /** `Insert` puts `x` right after the elements up to `j` when the element
      before `j` does not compare greater and every later one does. */
  lemma {:induction false} InsertAt(p: seq<Task>, x: Task, mode: SortMode, j: nat)
    requires j <= |p|
    requires j == 0 || Compare(mode, p[j - 1], x) <= 0
    requires forall k :: j <= k < |p| ==> Compare(mode, p[k], x) > 0
    ensures Insert(p, x, mode) == p[..j] + [x] + p[j..]
    decreases |p|
  {
    if j < |p| {
      var init, last := p[..|p| - 1], p[|p| - 1];
      assert Compare(mode, last, x) > 0;
      assert Insert(p, x, mode) == Insert(init, x, mode) + [last];
      InsertAt(init, x, mode, j);
      assert p[..j] == init[..j];
      assert p[j..] == init[j..] + [last];
    } else {
      assert p[..j] == p;
    }
  }

  /** Move `a[i]` left, one swap at a time, past the elements before it that
      compare greater; `j` is where it lands. The elements before `j` and
      after `i` stay, and those from `j` to `i - 1` move one place right. */
  method InsertInPlace(a: array<Task>, i: nat, mode: SortMode) returns (j: nat)
    requires i < a.Length
    modifies a
    ensures j <= i && a[j] == old(a[i])
    ensures forall k :: 0 <= k < j ==> a[k] == old(a[k])
    ensures forall k :: j < k <= i ==> a[k] == old(a[k - 1])
    ensures forall k :: i < k < a.Length ==> a[k] == old(a[k])
    ensures j == 0 || Compare(mode, old(a[j - 1]), old(a[i])) <= 0
    ensures forall k :: j <= k < i ==> Compare(mode, old(a[k]), old(a[i])) > 0
  {
    var x := a[i];
    j := i;
    while j > 0 && Compare(mode, a[j - 1], x) > 0
      invariant 0 <= j <= i && a[j] == x
      invariant forall k :: 0 <= k < j ==> a[k] == old(a[k])
      invariant forall k :: j < k <= i ==> a[k] == old(a[k - 1])
      invariant forall k :: i < k < a.Length ==> a[k] == old(a[k])
      invariant forall k :: j <= k < i ==> Compare(mode, old(a[k]), x) > 0
    {
      a[j - 1], a[j] := a[j], a[j - 1];
      j := j - 1;
    }
  }

  /** The places `InsertInPlace` describes one by one, read as a whole:
      the moved element inserted into the prefix before it, followed by the
      untouched suffix. */
  lemma Shifted<T>(before: seq<T>, after: seq<T>, i: nat, j: nat)
    requires j <= i < |before| == |after|
    requires after[j] == before[i]
    requires forall k :: 0 <= k < j ==> after[k] == before[k]
    requires forall k :: j < k <= i ==> after[k] == before[k - 1]
    requires forall k :: i < k < |after| ==> after[k] == before[k]
    ensures after[..i + 1] == before[..i][..j] + [before[i]] + before[..i][j..]
    ensures after[i + 1..] == before[i + 1..]
  {
    var sorted := before[..i];
    var target := sorted[..j] + [before[i]] + sorted[j..];
    forall k | 0 <= k <= i ensures after[k] == target[k] {
      if k < j {
        assert target[k] == sorted[k];
      } else if j < k {
        assert target[k] == sorted[k - 1];
      }
    }
    assert after[..i + 1] == target;
  }

  /** One pass of the in-place sort: when the first `i` places hold the
      sorted first `i` inputs and place `i` lands at `j` as `InsertAt`
      prescribes, the first `i + 1` places hold the sorted first `i + 1`
      inputs. */
  lemma SortStep(input: seq<Task>, before: seq<Task>, after: seq<Task>, i: nat, j: nat, mode: SortMode)
    requires j <= i < |before| == |input| == |after|
    requires before[..i] == SortTasks(input[..i], mode) && before[i..] == input[i..]
    requires after[..i + 1] == before[..i][..j] + [before[i]] + before[..i][j..]
    requires after[i + 1..] == before[i + 1..]
    requires j == 0 || Compare(mode, before[j - 1], before[i]) <= 0
    requires forall k :: j <= k < i ==> Compare(mode, before[k], before[i]) > 0
    ensures after[..i + 1] == SortTasks(input[..i + 1], mode)
    ensures after[i + 1..] == input[i + 1..]
  {
    assert before[i] == input[i] && before[i + 1..] == input[i + 1..] by {
      assert before[i..][0] == input[i..][0] && before[i..][1..] == input[i..][1..];
    }
    assert input[..i + 1][..i] == input[..i];
    InsertAt(before[..i], input[i], mode, j);
    assert before[..i][..j] + [input[i]] + before[..i][j..] == Insert(before[..i], input[i], mode);
  }

  /** The part of `Array.prototype.sort` that works in place: the array is
      rearranged into `SortTasks` of what it held. */
  method SortInPlace(a: array<Task>, mode: SortMode)
    modifies a
    ensures a[..] == SortTasks(old(a[..]), mode)
  {
    ghost var input := a[..];
    var i := 0;
    while i < a.Length
      invariant 0 <= i <= a.Length
      invariant a[..i] == SortTasks(input[..i], mode)
      invariant a[i..] == input[i..]
    {
      ghost var before := a[..];
      var j := InsertInPlace(a, i, mode);
      Shifted(before, a[..], i, j);
      SortStep(input, before, a[..], i, j, mode);
      i := i + 1;
    }
    assert input[..a.Length] == input;
  }

  /** The displayed list: the tasks the filter keeps, in the order the sort
      gives them. It is a rearrangement of exactly the kept tasks, and
      ordered by the mode's key when the comparator is a key difference for
      all of them. */
  function Project(tasks: seq<Task>, filter: string, sort: string): (r: seq<Task>)
    ensures multiset(r) == multiset(Visible(tasks, filter))
    ensures forall t :: t in r <==> t in tasks && (filter == "All" || t.status == filter)
    ensures (forall t :: t in Visible(tasks, filter) ==> Comparable(ModeOf(sort), t)) ==>
      SortedByKey(r, ModeOf(sort))
  {
    var kept := Visible(tasks, filter);
    var r := SortTasks(kept, ModeOf(sort));
    SortPermutes(kept, ModeOf(sort));
    assert forall t :: t in r <==> t in multiset(r);
    if forall i :: 0 <= i < |kept| ==> Comparable(ModeOf(sort), kept[i])
    then SortOrders(kept, ModeOf(sort)); r
    else r
  }

  /** The page's state. */
  class AppState {
    var tasks: seq<Task>
    var form: Form
    var editId: Option<string>
    var errorMsg: string
    var filter: string
    var sort: string

    constructor ()
      ensures tasks == [] && form == EmptyForm && editId == None && errorMsg == ""
      ensures filter == "All" && sort == "createdAtDesc"
    {
      tasks := [];
      form := EmptyForm;
      editId := None;
      errorMsg := "";
      filter := "All";
      sort := "createdAtDesc";
    }

    /** `fetchTasks`: without a token nothing is requested; a successful
        request replaces the list; a failed one leaves it. */
    method FetchTasks(token: Option<string>, response: Outcome<seq<Task>>) returns (requested: bool)
      modifies this
      ensures requested <==> HasToken(token)
      ensures requested && response.Success? ==> tasks == response.value
      ensures !(requested && response.Success?) ==> tasks == old(tasks)
      ensures form == old(form) && editId == old(editId) && errorMsg == old(errorMsg)
      ensures filter == old(filter) && sort == old(sort)
    {
      requested := HasToken(token);
      if requested && response.Success? {
        tasks := response.value;
      }
    }

    /** `handleChange` */
    method HandleChange(field: FormField, value: string)
      modifies this
      ensures form == WithField(old(form), field, value)
      ensures tasks == old(tasks) && editId == old(editId) && errorMsg == old(errorMsg)
      ensures filter == old(filter) && sort == old(sort)
    {
      form := WithField(form, field, value);
    }

    /** `handleSubmit`: validate, then update the task being edited or create
        a new one. The list changes only after the server answers: an update
        replaces the entries with the edited id by the response, a creation
        appends the response; both reset the form. A failed request leaves
        the list, the form and the edit target as they were. */
    method HandleSubmit(token: Option<string>, response: Outcome<Task>) returns (request: Option<SaveRequest>)
      modifies this
      ensures var invalid := Validate(old(form), token);
        && (invalid.Some? ==> request.None? && errorMsg == invalid.value)
        && (invalid.None? ==> request.Some?)
      ensures request.None? || response.Failure? ==>
        tasks == old(tasks) && form == old(form) && editId == old(editId)
      ensures request.Some? && Editing(old(editId)) ==> request.value == Put(old(editId).value, old(form))
      ensures request.Some? && !Editing(old(editId)) ==> request.value == Post(old(form))
      ensures request.Some? && response.Success? ==>
        && form == EmptyForm && errorMsg == ""
        && editId == (if Editing(old(editId)) then None else old(editId))
        && tasks == (if Editing(old(editId)) then ReplaceById(old(tasks), old(editId).value, response.value)
                     else old(tasks) + [response.value])
      ensures request.Some? && response.Failure? ==> errorMsg == SaveErrorMessage(response.error)
      ensures filter == old(filter) && sort == old(sort)
    {
      errorMsg := "";
      var invalid := Validate(form, token);
      if invalid.Some? {
        errorMsg := invalid.value;
        return None;
      }
      if Editing(editId) {
        request := Some(Put(editId.value, form));
        if response.Success? {
          tasks := ReplaceById(tasks, editId.value, response.value);
          editId := None;
        }
      } else {
        request := Some(Post(form));
        if response.Success? {
          tasks := tasks + [response.value];
        }
      }
      match response
      case Success(_) => form := EmptyForm;
      case Failure(error) => errorMsg := SaveErrorMessage(error);
    }

    /** `deleteTask`: nothing without confirmation; without a token an alert
        and no request; otherwise the tasks with `id` leave the list once the
        server confirms, and stay when it fails. */
    method DeleteTask(id: string, confirmed: bool, token: Option<string>, response: Outcome<()>)
      returns (request: Option<string>, alert: Option<string>)
      modifies this
      ensures request.Some? <==> confirmed && HasToken(token)
      ensures request.Some? ==> request.value == id
      ensures alert.Some? <==> confirmed && !HasToken(token)
      ensures alert.Some? ==> alert.value == "You must be logged in to delete tasks."
      ensures request.Some? && response.Success? ==> tasks == RemoveById(old(tasks), id)
      ensures request.None? || response.Failure? ==> tasks == old(tasks)
      ensures form == old(form) && editId == old(editId) && errorMsg == old(errorMsg)
      ensures filter == old(filter) && sort == old(sort)
    {
      request, alert := None, None;
      if !confirmed {
        return;
      }
      if !HasToken(token) {
        alert := Some("You must be logged in to delete tasks.");
        return;
      }
      request := Some(id);
      if response.Success? {
        tasks := RemoveById(tasks, id);
      }
    }

    /** `editTask`: load the task into the form and remember its id. */
    method EditTask(task: Task)
      modifies this
      ensures form == FormFromTask(task) && editId == Some(task.id)
      ensures tasks == old(tasks) && errorMsg == old(errorMsg)
      ensures filter == old(filter) && sort == old(sort)
    {
      form := FormFromTask(task);
      editId := Some(task.id);
    }

    /** The status filter select. */
    method SetFilter(value: string)
      modifies this`filter
      ensures filter == value
    {
      filter := value;
    }

    /** The sort select. */
    method SetSort(value: string)
      modifies this`sort
      ensures sort == value
    {
      sort := value;
    }

    /** `displayedTasks`: copy the list, keep the tasks matching the filter,
        and sort that copy in place. The list itself is only read. */
    method DisplayedTasks() returns (displayed: seq<Task>)
      ensures displayed == Project(tasks, filter, sort)
    {
      var copy := tasks;
      var status := filter;
      if status != "All" {
        copy := Filter(copy, (t: Task) => t.status == status);
      }
      var a := new Task[|copy|](i requires 0 <= i < |copy| => copy[i]);
      assert a[..] == copy;
      SortInPlace(a, ModeOf(sort));
      displayed := a[..];
    }
  }

  /** A failed creation leaves the list and the form as they were; a
      successful one then appends the server's task and clears the form. */
  method CreateScenario(token: string, created: Task, error: ApiError)
    returns (failedList: seq<Task>, failedForm: Form, list: seq<Task>, form: Form)
    requires token != ""
    ensures failedList == [] && failedForm == Form("X", "", "Pending", "")
    ensures list == [created] && form == EmptyForm
  {
    var app := new AppState();
    app.HandleChange(TitleField, "X");
    var request := app.HandleSubmit(Some(token), Failure(error));
    failedList, failedForm := app.tasks, app.form;
    request := app.HandleSubmit(Some(token), Success(created));
    list, form := app.tasks, app.form;
  }

  /** Editing a task whose id is the empty string and saving it creates a
      new task: the edit target is falsy, so the save is a POST, the
      server's task is appended and the target stays set. */
  method EmptyIdEditCreates(token: string, task: Task, created: Task)
    returns (request: Option<SaveRequest>, list: seq<Task>, target: Option<string>)
    requires token != "" && task.id == "" && task.title == "X" && task.status == "Pending"
    ensures request.Some? && request.value.Post?
    ensures list == [task, created] && target == Some("")
  {
    var app := new AppState();
    var _ := app.FetchTasks(Some(token), Success([task]));
    app.EditTask(task);
    Text.TrimEmptyIffBlank("X");
    request := app.HandleSubmit(Some(token), Success(created));
    list, target := app.tasks, app.editId;
  }
}

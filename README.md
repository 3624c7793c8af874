# Task manager client: state transitions, in Dafny

This project models the client of a small task-management system: a React
front end whose components hold task lists, forms and notifications and
change them in response to user events and server answers. Every handler
follows one pattern: check the input, wait for a server call, then replace
a piece of component state with a `map`, a `filter`, an append or a counter
step. The model keeps that pattern and drops the rendering:

- each awaited server call is an `Outcome<T>` parameter, either
  `Success(value)` or `Failure(error)`;
- `window.confirm` is a boolean parameter, and the current time `now` is an
  integer parameter (milliseconds since the epoch);
- `alert(...)` and the parent's callbacks are values the handler returns
  (an `Alert` event, an `OnSave` event, a flag saying the callback ran);
- a date is its ISO text together with the instant it denotes.

Components whose handlers update state step by step are classes whose
fields are the component's `useState` variables. Their methods have
`modifies` clauses and state the whole new state. The transitions they apply
(`MarkedRead`, `Toggle`, `RemoveAt`, `ReplaceById` and the others) are
functions, and lemmas prove what the source promises about them. The
dashboard computes its counters in one pure step and is modelled as a
function on a state value.

Modules, one per source file, plus shared helpers:

| module | file | what it holds |
|---|---|---|
| `Wrappers`, `Api` | wrappers.dfy | `Option`; server outcomes and error bodies |
| `Seqs` | seqs.dfy | `Array.prototype.map`, `filter` and `filter(...).length`, with their laws |
| `Text` | text.dfy | `trim`, ASCII `toLowerCase`, `includes`, number rendering, `split("T")[0]`, `replace` |
| `Tasks` | tasks.dfy | the task records the server sends |
| `NotificationCenter` | notification_center.dfy | the notification panel |
| `App` | app.dfy | the single-page task manager with its filter/sort view |
| `TaskList` | task_list.dfy | the paginated task list |
| `ShareTask` | share_task.dfy | the share dialog |
| `TaskForm` | task_form.dfy | the create/edit dialog with attachments |
| `Dashboard` | dashboard.dfy | the dashboard counters |
| `TaskItem` | task_item.dfy | one task card |

Where the code's behaviour differs from what its interface suggests, the
model follows the code:

- `markAsRead` lowers the unread counter even when the entry was already
  read or is absent. `NotificationCenter.CounterGoesNegative` shows the
  counter reaching -1.
- A pushed notification is not de-duplicated.
- No handler changes a task list, the notification list or the unread
  counter before the server answers.
- A page change is not clamped to the existing pages.
- `TaskList` never clears an error once one is set.
- When the server's list of validation messages is empty, `App.js`'s error
  handler throws while reading the first message. The error message then
  stays as it was cleared at the start of the handler.

## Model

| member | source | states |
|---|---|---|
| Text.TrimEmptyIffBlank | src/App.js:48 | `title.trim()` is empty exactly when every character of the title is ECMAScript whitespace |
| Text.IncludesIffWindow | src/ShareTask.js:58-59 | `s.includes(t)` holds exactly when some window of `s` equals `t` |
| Text.IncludesEmpty | src/ShareTask.js:57-60 | every string includes the empty search term |
| Text.ToLowerIdempotent | src/ShareTask.js:58-59 | lower-casing twice is lower-casing once |
| Text.DecimalRoundTrip | src/ShareTask.js:124 | the rendered count is a non-empty digit string that reads back as the count |
| Text.BeforeT | src/App.js:109 | `split("T")[0]` is a prefix without 'T', all of a string that has no 'T', and otherwise ends right before the first 'T' |
| Text.ReplaceFirstAt | src/TaskItem.js:97 | `replace('-', ' ')` changes exactly the first hyphen and nothing else |
| Text.ReplaceFirstAbsent | src/TaskItem.js:97 | without a hyphen the text is unchanged |
| Tasks.DateInputValue | src/component/Taskform.js:23 | a due date becomes its prefix before the first 'T', the whole text when it has no 'T', and a missing one the empty string |
| Seqs.Map | src/App.js:69 | `map` keeps the length and transforms each element in place |
| Seqs.Filter | src/App.js:126 | `filter` keeps only elements that pass and never lengthens |
| Seqs.FilterMembership | src/App.js:98 | an element survives `filter` exactly when it was present and passes |
| Seqs.FilterIsSubsequence | src/App.js:98 | `filter` keeps the survivors in their original order |
| Seqs.CountIndices | src/Dashboard.js:29-33 | `filter(p).length` is the number of positions whose element passes |
| Seqs.CountDisjoint | src/Dashboard.js:29-33 | two counts with disjoint predicates add up to at most the length |
| Seqs.FilterMultiplicity | src/App.js:98 | `filter` keeps every copy of a passing element and no copy of a failing one |
| Seqs.CountComplement | src/App.js:98 | the counts of a predicate and its negation add up to the length |
| NotificationCenter.MarkedRead | src/component/NotificationCenter.js:53-55 | marking `id` read keeps length, order, ids, messages and dates; an entry is read afterwards iff it was read or carries `id` |
| NotificationCenter.AllRead | src/component/NotificationCenter.js:65-67 | every entry is set read and nothing else changes |
| NotificationCenter.WithoutId | src/component/NotificationCenter.js:77 | deletion keeps only entries of the list that do not carry `id` |
| NotificationCenter.MarkedReadUnread | src/component/NotificationCenter.js:53-56 | marking `id` read lowers the number of unread entries by the number of unread entries with `id`, not by one |
| NotificationCenter.AllReadUnread | src/component/NotificationCenter.js:65-68 | after marking everything read no entry is unread |
| NotificationCenter.AllReadIdempotent | src/component/NotificationCenter.js:65-67 | marking everything read twice equals once |
| NotificationCenter.WithoutIdSpec | src/component/NotificationCenter.js:77-78 | deletion drops exactly the entries with `id`, keeps the rest in order, shortens by their number and removes their unread ones from the unread number |
| NotificationCenter.PushSync | src/component/NotificationCenter.js:21-23 | a push with +1 keeps the counter equal to the unread entries iff the pushed notification is unread |
| NotificationCenter.MarkAsReadSync | src/component/NotificationCenter.js:53-56 | the decrement keeps counter and list in step iff exactly one unread entry has the id; for a read or absent id the counter falls below the list's count |
| NotificationCenter.DeleteSync | src/component/NotificationCenter.js:77-78 | leaving the counter alone keeps it in step iff no unread entry had the id |
| NotificationCenter.MarkAllSync | src/component/NotificationCenter.js:65-68 | all read with counter 0 is always in step |
| NotificationCenter.FormatAge | src/component/NotificationCenter.js:84-93 | whole hours elapsed, floored: under 1 "just now", under 24 hours, under 168 days (floored hours / 24), otherwise the date; each bucket iff its range, with the number bounded by the elapsed time |
| NotificationCenter.AgeText | src/component/NotificationCenter.js:89-93 | "Just now", digits reading back as N followed by "h ago" or "d ago", and no relative text for old dates |
| NotificationCenter.NotificationPanel.constructor | src/component/NotificationCenter.js:7-9 | an empty list, counter 0, loading |
| NotificationCenter.NotificationPanel.OnNotification | src/component/NotificationCenter.js:21-23 | prepend without checking the id, counter +1 |
| NotificationCenter.NotificationPanel.FetchNotifications | src/component/NotificationCenter.js:34-48 | query limit 50 with read entries; success replaces list and counter with the response, failure keeps both; loading ends false |
| NotificationCenter.NotificationPanel.MarkAsRead | src/component/NotificationCenter.js:50-60 | success marks entries with `id` read and decrements unconditionally; failure changes nothing |
| NotificationCenter.NotificationPanel.MarkAllAsRead | src/component/NotificationCenter.js:62-72 | success leaves everything read with counter 0, in step; failure changes nothing |
| NotificationCenter.NotificationPanel.DeleteNotification | src/component/NotificationCenter.js:74-82 | success drops entries with `id`; the counter never changes |
| NotificationCenter.CounterGoesNegative | src/component/NotificationCenter.js:56 | marking an absent id read on a fresh panel gives counter -1 with no unread entry |
| NotificationCenter.DuplicatePushThenFetch | src/component/NotificationCenter.js:21-42 | the same push twice gives two entries and count 2; a fetch then replaces both with the server's snapshot |
| App.WithField | src/App.js:40-42 | a field edit sets exactly the named field |
| App.Validate | src/App.js:44-63 | "Title is required." iff the title trims to empty; "Invalid status value." iff the title is present and the status is not one of the three; the login message iff both pass and there is no token; no error iff all three pass |
| App.SaveErrorMessage | src/App.js:78-84 | the server's first validation message, "Error saving task." without a message list, and the cleared message when the list is empty |
| App.ReplaceById | src/App.js:69 | same length; entries with the edited id become the response, others stay |
| App.ReplaceByIdStable | src/App.js:69 | with the response under the edited id, every position keeps its id and a repeated replacement changes nothing |
| App.RemoveById | src/App.js:98 | exactly the tasks without the id remain, each as often as before, in order; the list shortens by the number of tasks with the id |
| App.FormFromTask | src/App.js:104-111 | the form takes title and status, description (or empty) and the date prefix of the due date |
| App.Visible | src/App.js:124-127 | "All" keeps the list unchanged; otherwise exactly the tasks with that status, each as often as before, in order; the list shortens by the number of tasks with another status |
| App.CompareIsKeyDifference | src/App.js:128-134 | between comparable tasks the comparator is the difference of the mode's keys (a missing due date counts as 0 in "dueDateDesc") |
| App.InsertPermutes | src/App.js:128-134 | one insertion step adds exactly the inserted task |
| App.SortPermutes | src/App.js:128-134 | the sort returns a rearrangement of its input |
| App.InsertElements | src/App.js:128-134 | an insertion step grows the list by one and adds no other task |
| App.InsertSorted | src/App.js:128-134 | inserting into a key-ordered list keeps it ordered |
| App.SortOrders | src/App.js:129-132 | when every task is comparable the result is ordered by the key: createdAt ascending or descending, due date ascending or descending |
| App.MissingDueDateStaysPut | src/App.js:131 | in "dueDateAsc" an undated task compares equal to all, so it is not moved last and the dated tasks around it stay unordered |
| App.InsertAt | src/App.js:128 | insertion puts the task right after the last element that does not compare greater |
| App.InsertInPlace | src/App.js:128 | the element at `i` lands at `j`; places before `j` and after `i` keep their elements, those it passed move one place right; every passed element compares greater and the one before `j` does not |
| App.Shifted | src/App.js:128 | the places described one by one form the prefix with the element inserted at `j`, followed by the untouched suffix |
| App.SortStep | src/App.js:128-134 | one pass of the in-place sort extends the sorted prefix from `i` to `i + 1` inputs |
| App.SortInPlace | src/App.js:128-134 | sorting the array in place yields the stable sort of what it held |
| App.Project | src/App.js:123-134 | the view is a rearrangement of exactly the kept tasks, ordered by the key when all are comparable |
| App.AppState.constructor | src/App.js:8-18 | no tasks, empty form with "Pending", no edit target, no message, filter "All", sort "createdAtDesc" |
| App.AppState.FetchTasks | src/App.js:24-38 | a request iff there is a token; success replaces the list, failure keeps it |
| App.AppState.HandleChange | src/App.js:40-42 | the form gets the field edit, nothing else changes |
| App.AppState.HandleSubmit | src/App.js:44-85 | invalid input sets its message and sends nothing; otherwise PUT for a truthy (non-empty) edit target or POST; success replaces by id and clears the target, or appends and keeps the target, then clears the form; failure keeps list, form and target and sets the server's message |
| App.AppState.DeleteTask | src/App.js:87-102 | nothing without confirmation; an alert and no request without a token; the tasks with the id leave only after a successful request |
| App.AppState.EditTask | src/App.js:104-112 | the form is loaded from the task and the task's id becomes the edit target |
| App.AppState.SetFilter | src/App.js:171 | the status filter select sets the filter |
| App.AppState.SetSort | src/App.js:178 | the sort select sets the sort |
| App.AppState.DisplayedTasks | src/App.js:123-134 | the projection computed on a sorted copy equals `Project`, and the list itself is not changed |
| App.CreateScenario | src/App.js:44-85 | a failed create leaves list and form; a successful one appends the task and clears the form |
| App.EmptyIdEditCreates | src/App.js:65-75 | editing a task whose id is "" and saving POSTs, appends the server's task and leaves the edit target set |
| TaskList.WithFilter | src/TaskList.js:61-63 | a filter change sets that filter, keeps the other and the limit, and resets the page to 1 |
| TaskList.FilterChangesCommute | src/TaskList.js:61-63 | two filter changes commute and end on page 1 |
| TaskList.PagerFor | src/TaskList.js:155-190 | a pager iff more than one page; buttons exactly 1..totalPages, active iff the page; Previous disabled iff page 1 and targets page-1; Next disabled iff the last page and targets page+1 |
| TaskList.ActiveButton | src/TaskList.js:167-179 | some button is active iff 1 <= page <= totalPages, and never two |
| TaskList.NextPastLastPage | src/TaskList.js:181-187 | Next on the last page is only styled disabled; following it leaves no active button |
| TaskList.TaskListView.constructor | src/TaskList.js:7-22 | no tasks, loading, no error, filters ("", "", 1, 10), pagination (1, 1, 0) |
| TaskList.TaskListView.View | src/TaskList.js:69-193 | the loading text iff loading; otherwise the error iff it is a non-empty string; otherwise the empty text iff there are no tasks, else the cards with the pager |
| TaskList.TaskListView.FetchTasks | src/TaskList.js:28-43 | success replaces tasks and pagination and keeps the error; failure sets the error and keeps both; loading ends false |
| TaskList.TaskListView.HandleDelete | src/TaskList.js:45-54 | only after confirmation; success refetches instead of removing locally; failure sets the error |
| TaskList.TaskListView.HandleFilterChange | src/TaskList.js:61-63 | the filters become `WithFilter` of the old ones |
| TaskList.TaskListView.HandlePageChange | src/TaskList.js:65-67 | the page is set as given, unclamped |
| TaskList.ErrorOutlivesRefetch | src/TaskList.js:28-70 | after a failed fetch a successful one still shows the old error |
| TaskList.PageBeyondLast | src/TaskList.js:181-184 | Next on the last page makes the next query ask for page totalPages + 1 |
| ShareTask.Without | src/ShareTask.js:32 | deselection keeps exactly the other ids, in order |
| ShareTask.Toggle | src/ShareTask.js:30-36 | the id is selected afterwards iff it was not; other ids are unaffected; a new id is appended at the end |
| ShareTask.ToggleNoDuplicates | src/ShareTask.js:30-36 | the selection never lists an id twice |
| ShareTask.ToggleTwice | src/ShareTask.js:30-36 | toggling twice gives the same set; the same list for an unselected id; a selected id moves to the end |
| ShareTask.FilteredUsers | src/ShareTask.js:57-60 | a user is listed iff the lower-cased term occurs in the lower-cased name or email; order kept; an empty term lists everyone |
| ShareTask.SearchIgnoresCase | src/ShareTask.js:57-60 | a term and its lower-case form list the same users |
| ShareTask.ShareButton | src/ShareTask.js:118-125 | disabled iff sharing or nothing selected; the text is "Sharing..." or "Share with N user(s)" with N the selection's length |
| ShareTask.ShareTaskModal.constructor | src/ShareTask.js:5-8 | no users, no selection, not loading, empty search |
| ShareTask.ShareTaskModal.FetchUsers | src/ShareTask.js:14-28 | the four fixed users |
| ShareTask.ShareTaskModal.HandleUserSelect | src/ShareTask.js:30-36 | the selection is toggled |
| ShareTask.ShareTaskModal.SetSearchTerm | src/ShareTask.js:84 | the search box sets the term |
| ShareTask.ShareTaskModal.HandleShare | src/ShareTask.js:38-55 | an empty selection alerts with no call; otherwise the call with task and selection, then success then close when the call succeeds and a success callback exists, else the failure alert and no close; loading ends false |
| ShareTask.PickTwiceThenShare | src/ShareTask.js:30-55 | picking a user twice leaves the button disabled and sharing only alerts |
| ShareTask.ShareFromDashboard | src/ShareTask.js:44-51 | from a dashboard card, whose task item has no `onUpdate`, a share the server accepted still ends in "Failed to share task" and the dialog is not closed |
| TaskForm.With | src/component/Taskform.js:29-34 | a field edit sets exactly the named field |
| TaskForm.WithGet | src/component/Taskform.js:29-34 | writing a field's own value changes nothing; the last write wins |
| TaskForm.FromTask | src/component/Taskform.js:16-27 | title, status and priority copied; description or empty; the due date's calendar-date prefix or empty |
| TaskForm.SkipIndexInside | src/component/Taskform.js:61 | the index filter drops exactly the element at the index |
| TaskForm.SkipIndexOutside | src/component/Taskform.js:61 | the index filter keeps everything for an index outside the list |
| TaskForm.RemoveAtSpec | src/component/Taskform.js:60-62 | an index in range removes exactly that attachment, one shorter, others in order; out of range nothing changes |
| TaskForm.RemoveLastAppended | src/component/Taskform.js:47-62 | removing the attachment just appended restores the list |
| TaskForm.TaskFormModal.constructor | src/component/Taskform.js:5-14 | default form ("", "", "pending", "medium", ""), no attachments, not uploading, not loading |
| TaskForm.TaskFormModal.SyncFromTask | src/component/Taskform.js:16-27 | with a task, the form and attachments (or none) are loaded from it; without one nothing changes |
| TaskForm.TaskFormModal.HandleChange | src/component/Taskform.js:29-34 | the form gets the field edit |
| TaskForm.TaskFormModal.HandleFileUpload | src/component/Taskform.js:36-58 | no file, no upload and no change; success appends one record; failure alerts and keeps the list; uploading ends false |
| TaskForm.TaskFormModal.RemoveAttachment | src/component/Taskform.js:60-62 | the attachments become `RemoveAt` of the old ones |
| TaskForm.TaskFormModal.HandleSubmit | src/component/Taskform.js:64-90 | update with the task's id or create, with form and attachments; `onSave` only on success, an alert otherwise; loading ends false |
| TaskForm.UploadThenRemove | src/component/Taskform.js:36-90 | upload then removing that file saves the task's own attachments |
| Dashboard.ComputeStats | src/Dashboard.js:28-35 | total is the server's total; completed, pending and overdue are the numbers of tasks on the page that are completed, pending, and dated, not completed and due before now; completed + pending and overdue + completed are at most the page length |
| Dashboard.AllCompleted | src/Dashboard.js:29-33 | a page of completed tasks counts all completed, none pending, none overdue |
| Dashboard.FetchDashboardData | src/Dashboard.js:19-41 | success shows the page's tasks and their counters; failure keeps tasks and counters; loading ends false |
| Dashboard.FailedFirstFetch | src/Dashboard.js:7-40 | a failed first fetch shows zero counters and no tasks |
| TaskItem.PriorityClass | src/TaskItem.js:21-28 | a class iff the priority is high, medium or low, and then "priority-" followed by it |
| TaskItem.FormatDueDate | src/TaskItem.js:30-34 | the placeholder iff there is no due date, otherwise that date |
| TaskItem.DateBadgeOf | src/TaskItem.js:90-92 | the overdue badge iff the task is overdue; otherwise the task's own formatted due date, and a dated task shown that way is completed or not yet due |
| TaskItem.CompletedNeverOverdue | src/TaskItem.js:36-39 | a completed task shows its date, an undated one the placeholder |
| TaskItem.StatusBadge | src/TaskItem.js:93-96 | success iff completed, warning iff in-progress, info otherwise |
| TaskItem.StatusLabel | src/TaskItem.js:97 | only the first hyphen becomes a space |
| TaskItem.StatusLabels | src/TaskItem.js:97 | "in-progress" reads "in progress", "pending" is unchanged, a second hyphen survives |
| TaskItem.TaskCard.constructor | src/TaskItem.js:5-7 | not updating |
| TaskItem.TaskCard.HandleStatusChange | src/TaskItem.js:9-19 | sends only the id and the new status; `onUpdate` runs iff the call succeeds and a callback was given; updating ends false |
| TaskItem.FailedStatusChange | src/TaskItem.js:9-19 | a failed change refreshes nothing and leaves the card usable |

Some definitions stand for JavaScript built-ins or inline expressions and
carry no contract of their own; their meaning is stated by the rows that
use them:

- `Text.Trim` (`trim`, src/App.js:48): `Text.TrimEmptyIffBlank`.
- `Text.ToLower` (`toLowerCase`, src/ShareTask.js:58-59): `Text.ToLowerIdempotent`, `ShareTask.SearchIgnoresCase`.
- `Text.Includes` (`includes`, src/ShareTask.js:58-59): `Text.IncludesIffWindow`, `Text.IncludesEmpty`.
- `Text.ReplaceFirst` (`replace('-', ' ')`, src/TaskItem.js:97): `Text.ReplaceFirstAt`, `Text.ReplaceFirstAbsent`, `TaskItem.StatusLabel`.
- `Text.Decimal` (number to text, src/ShareTask.js:124): `Text.DecimalRoundTrip`.
- `App.HasToken` (a truthy token, src/App.js:59-60, 89-90): `App.Validate`, `App.AppState.FetchTasks`, `App.AppState.DeleteTask`.
- `App.Editing` (`if (editId)`, src/App.js:65): `App.AppState.HandleSubmit`, `App.EmptyIdEditCreates`.
- `App.Compare` (the sort comparator, src/App.js:128-134): `App.CompareIsKeyDifference`, `App.MissingDueDateStaysPut`.
- `App.Insert` and `App.SortTasks` (`Array.prototype.sort`, src/App.js:128): `App.InsertAt`, `App.InsertPermutes`, `App.InsertElements`, `App.InsertSorted`, `App.SortPermutes`, `App.SortOrders`, `App.SortInPlace`.
- `TaskForm.SkipIndex` and `TaskForm.RemoveAt` (`filter((_, i) => i !== index)`, src/component/Taskform.js:61): `TaskForm.SkipIndexInside`, `TaskForm.SkipIndexOutside`, `TaskForm.RemoveAtSpec`, `TaskForm.RemoveLastAppended`.
- `ShareTask.Matches` (the search predicate, src/ShareTask.js:58-59): `ShareTask.FilteredUsers`, `ShareTask.SearchIgnoresCase`.
- `Dashboard.IsCompleted` and `Dashboard.IsPending` (src/Dashboard.js:29-30): `Dashboard.ComputeStats`, `Dashboard.AllCompleted`.
- `TaskItem.IsOverdue` (src/TaskItem.js:36-39, src/Dashboard.js:31-33): `TaskItem.DateBadgeOf`, `TaskItem.CompletedNeverOverdue`, `Dashboard.AllCompleted`.

## Left out

- The real-time channel's lifecycle (registering and removing the `notification` listener) and the `useEffect` triggers. The model has the handlers; it does not call them on mount, on opening, on a token or on a filter change.
- Rendering: JSX, the CSS classes other than the flags above, the modal open/close flags (`showForm`, `editingTask`, `showShareModal`), and `TaskList`'s `handleEdit`, which only sets those flags.
- Locale date formatting (`toLocaleDateString`, `toLocaleString`). Those dates stay abstract (`OnDate`, `LocaleDate`).
- Date parsing: invalid dates and their NaN values. A date is its ISO text and its instant, and `new Date(iso).toISOString()` is taken to give back the text.
- Text.ToLower: covers the Basic Latin letters only, not full Unicode case mapping.
- App.SortTasks: a stable insertion sort stands for the engine's `Array.prototype.sort`. The language standard requires a stable sort, so the result agrees wherever the comparator is consistent. In "dueDateAsc" with a missing date it is not, and an engine may order differently.
- App.FormFromTask: `editTask` passes an absent description through as undefined; the model's form holds strings and puts the empty string there. Two differences follow. With `value={undefined}` the text area becomes uncontrolled and keeps whatever it showed before, so editing a described task and then an undescribed one still shows the first description, where the model shows "". And the PUT the source sends omits `description`, where the model's request carries "".
- The `{ limit: 5 }` query the dashboard sends: the page the server returns is a parameter, so the model does not say that at most five tasks come back.
- The browser's `required` check on the title input: the model submits whatever the form holds.
- Interleaving of handlers that await at the same time, and the stale `tasks` that `App.js`'s `handleSubmit` and `deleteTask` read from their closure. Each handler runs to completion before the next one starts.
- `console.error` logging, the server's request bodies beyond the fields shown, and the HTTP headers and token storage.
- JavaScript numbers as doubles: counters and instants are unbounded integers.
- Login, registration, logout, the analytics views, the navigation bar, the sidebar and the page wrappers are not part of this model.

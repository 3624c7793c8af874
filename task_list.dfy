/** The paginated task list (src/TaskList.js): the fetched page, the filter
    and page selection sent to the server, the pagination the server reports,
    and the pager built from them. */
module TaskList {
  import opened Wrappers
  import opened Api
  import opened Tasks

  /** The query sent with every fetch. */
  datatype Filters = Filters(status: string, priority: string, page: int, limit: int)

  const InitialFilters := Filters("", "", 1, 10)

  /** What the server reports about the page it sent. */
  datatype Pagination = Pagination(totalPages: int, currentPage: int, total: int)

  const InitialPagination := Pagination(1, 1, 0)

  /** The two filter selects, by the key they pass to `handleFilterChange`. */
  datatype FilterKey = StatusKey | PriorityKey

  function FilterOf(f: Filters, key: FilterKey): string {
    match key
    case StatusKey => f.status
    case PriorityKey => f.priority
  }

  /** `{ ...prev, [key]: value, page: 1 }` */
  function WithFilter(f: Filters, key: FilterKey, value: string): (r: Filters)
    ensures FilterOf(r, key) == value
    ensures forall other :: other != key ==> FilterOf(r, other) == FilterOf(f, other)
    ensures r.page == 1 && r.limit == f.limit
  {
    match key
    case StatusKey => f.(status := value, page := 1)
    case PriorityKey => f.(priority := value, page := 1)
  }

  /** Changing one filter and then the other lands on the same query in
      either order, and on the first page. */
  lemma FilterChangesCommute(f: Filters, status: string, priority: string)
    ensures WithFilter(WithFilter(f, StatusKey, status), PriorityKey, priority)
         == WithFilter(WithFilter(f, PriorityKey, priority), StatusKey, status)
    ensures WithFilter(WithFilter(f, StatusKey, status), PriorityKey, priority)
         == Filters(status, priority, 1, f.limit)
  {
  }

  /** One numbered button of the pager. */
  datatype PageButton = PageButton(number: int, active: bool)

  /** The pager: Previous, the numbered buttons, Next. "Disabled" is only a
      style class; each button's click handler is attached whatever it says,
      and `target` is the page it passes to `handlePageChange`. */
  datatype Pager = Pager(
    previousDisabled: bool, previousTarget: int,
    buttons: seq<PageButton>,
    nextDisabled: bool, nextTarget: int)

  /** The pager for the current page and the reported page count; none
      unless there is more than one page. */
  function PagerFor(page: int, totalPages: int): (r: Option<Pager>)
    ensures r.Some? <==> totalPages > 1
    ensures r.Some? ==> |r.value.buttons| == totalPages
    ensures r.Some? ==> forall i :: 0 <= i < |r.value.buttons| ==>
      r.value.buttons[i].number == i + 1 && (r.value.buttons[i].active <==> page == i + 1)
    ensures r.Some? ==> (r.value.previousDisabled <==> page == 1) && r.value.previousTarget == page - 1
    ensures r.Some? ==> (r.value.nextDisabled <==> page == totalPages) && r.value.nextTarget == page + 1
  {
    if totalPages > 1 then
      Some(Pager(page == 1, page - 1,
                 seq(totalPages, i => PageButton(i + 1, page == i + 1)),
                 page == totalPages, page + 1))
    else None
  }

  /** Some button is active exactly when the page is one of 1..totalPages,
      and never more than one is. */
  lemma ActiveButton(page: int, totalPages: int)
    requires totalPages > 1
    ensures var buttons := PagerFor(page, totalPages).value.buttons;
      && ((exists i :: 0 <= i < |buttons| && buttons[i].active) <==> 1 <= page <= totalPages)
      && forall i, j :: 0 <= i < j < |buttons| ==> !(buttons[i].active && buttons[j].active)
  {
    var buttons := PagerFor(page, totalPages).value.buttons;
    if 1 <= page <= totalPages {
      assert buttons[page - 1].active;
    }
  }

  /** Pressing Next on the last page (disabled only in style) leaves the
      range: the pager then shows no active button and neither end disabled. */
  lemma NextPastLastPage(totalPages: int)
    requires totalPages > 1
    ensures var before := PagerFor(totalPages, totalPages).value;
      && before.nextDisabled
      && var after := PagerFor(before.nextTarget, totalPages).value;
      && after.previousTarget == totalPages
      && !after.previousDisabled && !after.nextDisabled
      && forall i :: 0 <= i < |after.buttons| ==> !after.buttons[i].active
  {
  }

  /** What the component renders, in the order it checks: the loading text,
      the error text when the error is a non-empty string, the empty-list
      text, or the cards followed by the pager. */
  datatype Screen =
    | LoadingScreen
    | ErrorScreen(message: string)
    | NoTasks
    | Grid(tasks: seq<Task>, pager: Option<Pager>)

  /** The component's state. */
  class TaskListView {
    var tasks: seq<Task>
    var loading: bool
    var error: Option<string>
    var filters: Filters
    var pagination: Pagination

    constructor ()
      ensures tasks == [] && loading && error == None
      ensures filters == InitialFilters && pagination == InitialPagination
    {
      tasks := [];
      loading := true;
      error := None;
      filters := InitialFilters;
      pagination := InitialPagination;
    }

    /** The rendered output. */
    function View(): (s: Screen)
      reads this
      ensures loading <==> s == LoadingScreen
      ensures s.ErrorScreen? <==> !loading && error.Some? && error.value != ""
      ensures s.ErrorScreen? ==> s.message == error.value
      ensures s == NoTasks <==> !loading && !(error.Some? && error.value != "") && tasks == []
      ensures s.Grid? <==> !loading && !(error.Some? && error.value != "") && tasks != []
      ensures s.Grid? ==> s.tasks == tasks
      ensures s.Grid? ==> s.pager == PagerFor(filters.page, pagination.totalPages)
    {
      if loading then LoadingScreen
      else if error.Some? && error.value != "" then ErrorScreen(error.value)
      else if tasks == [] then NoTasks
      else Grid(tasks, PagerFor(filters.page, pagination.totalPages))
    }

    /** `fetchTasks`: request the current query; on success take the page's
        tasks and pagination, on failure record the message. An earlier error
        is not cleared by a later success. Loading ends either way. */
    method FetchTasks(response: Outcome<TaskPage>) returns (query: Filters)
      modifies this
      ensures query == old(filters) && filters == old(filters) && !loading
      ensures response.Success? ==>
        && tasks == response.value.tasks
        && pagination == Pagination(response.value.totalPages, response.value.currentPage, response.value.total)
        && error == old(error)
      ensures response.Failure? ==>
        tasks == old(tasks) && pagination == old(pagination) && error == Some(response.error.message)
    {
      loading := true;
      query := filters;
      match response {
        case Success(page) =>
          tasks := page.tasks;
          pagination := Pagination(page.totalPages, page.currentPage, page.total);
        case Failure(e) =>
          error := Some(e.message);
      }
      loading := false;
    }

    /** `handleDelete`: only after confirmation; a successful delete fetches
        the list again rather than removing the task locally, a failed one
        records the message. */
    method HandleDelete(taskId: string, confirmed: bool, response: Outcome<()>, refetch: Outcome<TaskPage>)
      returns (request: Option<string>, query: Option<Filters>)
      modifies this
      ensures request.Some? <==> confirmed
      ensures request.Some? ==> request.value == taskId
      ensures query.Some? <==> confirmed && response.Success?
      ensures query.Some? ==> query.value == old(filters)
      ensures filters == old(filters)
      ensures query.None? ==> tasks == old(tasks) && pagination == old(pagination) && loading == old(loading)
      ensures query.None? && request.Some? ==> error == Some(response.error.message)
      ensures request.None? ==> error == old(error)
      ensures query.Some? ==> !loading
      ensures query.Some? && refetch.Success? ==>
        && tasks == refetch.value.tasks && error == old(error)
        && pagination == Pagination(refetch.value.totalPages, refetch.value.currentPage, refetch.value.total)
      ensures query.Some? && refetch.Failure? ==>
        tasks == old(tasks) && pagination == old(pagination) && error == Some(refetch.error.message)
    {
      request, query := None, None;
      if !confirmed {
        return;
      }
      request := Some(taskId);
      match response
      case Success(_) =>
        var q := FetchTasks(refetch);
        query := Some(q);
      case Failure(e) =>
        error := Some(e.message);
    }

    /** `handleFilterChange`: set the filter and go back to the first page. */
    method HandleFilterChange(key: FilterKey, value: string)
      modifies this`filters
      ensures filters == WithFilter(old(filters), key, value)
    {
      filters := WithFilter(filters, key, value);
    }

    /** `handlePageChange`: set the page as given, without clamping it to
        the pages that exist. */
    method HandlePageChange(newPage: int)
      modifies this`filters
      ensures filters == old(filters).(page := newPage)
    {
      filters := filters.(page := newPage);
    }
  }

  /** A failed fetch followed by a successful one still shows the first
      failure's message: the error is set by failures only. */
  method ErrorOutlivesRefetch(failure: ApiError, page: TaskPage) returns (screen: Screen)
    requires failure.message != ""
    ensures screen == ErrorScreen(failure.message)
  {
    var view := new TaskListView();
    var _ := view.FetchTasks(Failure(failure));
    var _ := view.FetchTasks(Success(page));
    screen := view.View();
  }

  /** Walking past the last page with Next sends a page the server has
      not reported. */
  method PageBeyondLast(page: TaskPage) returns (query: Filters)
    requires page.totalPages > 1 && page.tasks != []
    ensures query.page == page.totalPages + 1
  {
    var view := new TaskListView();
    var _ := view.FetchTasks(Success(page));
    view.HandlePageChange(page.totalPages);
    var screen := view.View();
    assert screen.Grid? && screen.pager.Some?;
    view.HandlePageChange(screen.pager.value.nextTarget);
    query := view.FetchTasks(Success(page));
  }
}

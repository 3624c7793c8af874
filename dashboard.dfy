/** The dashboard (src/Dashboard.js): the most recent tasks and four
    counters computed from one fetched page. */
module Dashboard {
  import opened Api
  import opened Seqs
  import opened Tasks
  import TaskItem

  datatype Stats = Stats(total: int, completed: nat, pending: nat, overdue: nat)

  const InitialStats := Stats(0, 0, 0, 0)

  datatype DashboardState = DashboardState(recentTasks: seq<Task>, stats: Stats, loading: bool)

  const InitialState := DashboardState([], InitialStats, true)

  predicate IsCompleted(t: Task) {
    t.status == "completed"
  }

  predicate IsPending(t: Task) {
    t.status == "pending"
  }

  /** The counters: the server's total, and three counts over the tasks of
      the fetched page only. */
  function ComputeStats(page: TaskPage, now: int): (s: Stats)
    ensures s.total == page.total
    ensures s.completed + s.pending <= |page.tasks|
    ensures s.overdue + s.completed <= |page.tasks|
    ensures s.completed == Count(page.tasks, IsCompleted)
    ensures s.pending == Count(page.tasks, IsPending)
    ensures s.overdue == Count(page.tasks, t => TaskItem.IsOverdue(t, now))
  {
    var tasks := page.tasks;
    var overdue := t => TaskItem.IsOverdue(t, now);
    CountDisjoint(tasks, IsCompleted, IsPending);
    CountDisjoint(tasks, overdue, IsCompleted);
    Stats(page.total, Count(tasks, IsCompleted), Count(tasks, IsPending), Count(tasks, overdue))
  }

  /** When every task on the page is completed, none is overdue and none
      pending, whatever the dates. */
  lemma AllCompleted(page: TaskPage, now: int)
    requires forall i :: 0 <= i < |page.tasks| ==> IsCompleted(page.tasks[i])
    ensures ComputeStats(page, now).completed == |page.tasks|
    ensures ComputeStats(page, now).overdue == 0 && ComputeStats(page, now).pending == 0
  {
    FilterAll(page.tasks, IsCompleted);
  }

  /** `fetchDashboardData`: a successful fetch shows its tasks and the
      counters computed from them; a failed one leaves both as they were.
      Loading ends either way. */
  function FetchDashboardData(state: DashboardState, response: Outcome<TaskPage>, now: int): (r: DashboardState)
    ensures !r.loading
    ensures response.Success? ==>
      r.recentTasks == response.value.tasks && r.stats == ComputeStats(response.value, now)
    ensures response.Failure? ==> r.recentTasks == state.recentTasks && r.stats == state.stats
  {
    match response
    case Success(page) => DashboardState(page.tasks, ComputeStats(page, now), false)
    case Failure(_) => state.(loading := false)
  }

  /** A dashboard whose only fetch fails shows zeros and no tasks. */
  lemma FailedFirstFetch(error: ApiError, now: int)
    ensures FetchDashboardData(InitialState, Failure(error), now) == DashboardState([], InitialStats, false)
  {
  }
}

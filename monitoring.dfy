/**
 * The task monitoring page (src/pages/Monitoring.tsx): the task list with its last-known-good
 * fetch rule, the date / status / search filter pipeline, the download and sampling handlers
 * with their single "in progress" slots, and the sampling parameters.
 *
 * A calendar day is an abstract key (`int`): the date filter compares the day of a task's
 * creation time with the selected day, and a task without a creation time matches no day.
 */
module Monitoring {
  import opened Wrappers
  import opened Numbers
  import Text
  import Seqs
  import Fetch
  import P = Params

  datatype Task = Task(
    taskId: string,
    fileName: string,
    category: string,
    status: string,
    creationDay: Option<int>,
    duration: Option<int>,
    fullName: string)

  // ---------------------------------------------------------------- filter pipeline

  /** The status selector's value that switches the status filter off. */
  const AllStatuses := "all"

  predicate OnDay(day: int, t: Task)
  {
    t.creationDay == Some(day)
  }

  predicate HasStatus(status: string, t: Task)
  {
    Text.ToLower(t.status) == Text.ToLower(status)
  }

  predicate MatchesSearch(term: string, t: Task)
  {
    Text.IncludesIgnoringCase(t.taskId, term) || Text.IncludesIgnoringCase(t.fileName, term)
  }

  /** The list the filter effect computes: each active filter in turn, date, then status, then search. */
  function FilterTasks(tasks: seq<Task>, date: Option<int>, statusFilter: string, searchTerm: string): seq<Task>
  {
    var byDate := if date.Some? then Seqs.Filter(tasks, t => OnDay(date.value, t)) else tasks;
    var byStatus := if statusFilter != AllStatuses then Seqs.Filter(byDate, t => HasStatus(statusFilter, t)) else byDate;
    if searchTerm != "" then Seqs.Filter(byStatus, t => MatchesSearch(searchTerm, t)) else byStatus
  }

  /** The test a task must pass to be shown: every active filter at once. */
  predicate Kept(date: Option<int>, statusFilter: string, searchTerm: string, t: Task)
  {
    (date.Some? ==> OnDay(date.value, t))
    && (statusFilter != AllStatuses ==> HasStatus(statusFilter, t))
    && (searchTerm != "" ==> MatchesSearch(searchTerm, t))
  }

  /** The pipeline is one filter by the conjunction of the active tests. */
  lemma {:induction false} FilterTasksIsOneFilter(tasks: seq<Task>, date: Option<int>, statusFilter: string, searchTerm: string)
    ensures FilterTasks(tasks, date, statusFilter, searchTerm) == Seqs.Filter(tasks, t => Kept(date, statusFilter, searchTerm, t))
  {
    var d: Task -> bool := t => date.Some? ==> OnDay(date.value, t);
    var st: Task -> bool := t => statusFilter != AllStatuses ==> HasStatus(statusFilter, t);
    var se: Task -> bool := t => searchTerm != "" ==> MatchesSearch(searchTerm, t);
    var dst: Task -> bool := t => d(t) && st(t);
    var all: Task -> bool := t => Kept(date, statusFilter, searchTerm, t);
    var byDate := Seqs.Filter(tasks, d);
    if date.None? {
      Seqs.FilterKeepsAll(tasks, d);
    } else {
      assert byDate == Seqs.Filter(tasks, t => OnDay(date.value, t)) by {
        FilterSameTest(tasks, d, t => OnDay(date.value, t));
      }
    }
    var byStatus := Seqs.Filter(byDate, st);
    if statusFilter == AllStatuses {
      Seqs.FilterKeepsAll(byDate, st);
    } else {
      FilterSameTest(byDate, st, t => HasStatus(statusFilter, t));
    }
    Seqs.FilterCompose(tasks, d, st, dst);
    var bySearch := Seqs.Filter(byStatus, se);
    if searchTerm == "" {
      Seqs.FilterKeepsAll(byStatus, se);
    } else {
      FilterSameTest(byStatus, se, t => MatchesSearch(searchTerm, t));
    }
    Seqs.FilterCompose(tasks, dst, se, all);
  }

  lemma {:induction false} FilterSameTest<T>(s: seq<T>, p: T -> bool, q: T -> bool)
    requires forall x :: p(x) == q(x)
    ensures Seqs.Filter(s, p) == Seqs.Filter(s, q)
  {
    if s != [] {
      FilterSameTest(s[1..], p, q);
    }
  }

  /**
   * The shown list is the task list with some tasks left out, in the same order, and a task
   * is shown exactly when it passes every active filter.
   */
  lemma FilteredTasksAreTheKeptOnes(tasks: seq<Task>, date: Option<int>, statusFilter: string, searchTerm: string, t: Task)
    ensures Seqs.IsSubsequence(FilterTasks(tasks, date, statusFilter, searchTerm), tasks)
    ensures t in FilterTasks(tasks, date, statusFilter, searchTerm) <==> t in tasks && Kept(date, statusFilter, searchTerm, t)
  {
    FilterTasksIsOneFilter(tasks, date, statusFilter, searchTerm);
    Seqs.FilterIsSubsequence(tasks, t => Kept(date, statusFilter, searchTerm, t));
    Seqs.FilterMembership(tasks, t => Kept(date, statusFilter, searchTerm, t), t);
  }

  /** With no date, every status and no search text, every task is shown. */
  lemma NoFilterShowsAll(tasks: seq<Task>)
    ensures FilterTasks(tasks, None, AllStatuses, "") == tasks
  {
  }

  // ---------------------------------------------------------------- downloads

  /** The name a downloaded result file is saved under. */
  function DownloadFileName(taskId: string): (name: string)
    ensures |name| == |taskId| + 10
    ensures name[..5] == "task_" && name[|name| - 5..] == ".xlsx"
    ensures name[5..|name| - 5] == taskId
  {
    "task_" + taskId + ".xlsx"
  }

  /** The name a sampled file is saved under. */
  function SampleFileName(taskId: string): (name: string)
    ensures |name| == |taskId| + 13
    ensures name[..8] == "sampled_" && name[|name| - 5..] == ".xlsx"
    ensures name[8..|name| - 5] == taskId
  {
    "sampled_" + taskId + ".xlsx"
  }

  /** Different tasks never save under the same name, and a download never has a sample's name. */
  lemma FileNamesAreDistinct(a: string, b: string)
    ensures DownloadFileName(a) == DownloadFileName(b) ==> a == b
    ensures SampleFileName(a) == SampleFileName(b) ==> a == b
    ensures DownloadFileName(a) != SampleFileName(b)
  {
    assert DownloadFileName(a)[0] == 't';
    assert SampleFileName(b)[0] == 's';
  }

  /** How the download request settles: an ok response, a response that is not ok, or a thrown error. */
  datatype DownloadOutcome = Downloaded | DownloadRefused | DownloadThrown

  /** How the sampling request settles: any response (its body is saved whatever the status), or a thrown error. */
  datatype SampleOutcome = SampleReceived | SampleThrown

  // ---------------------------------------------------------------- the page

  class MonitoringPage {
    /** What `setTasks` last stored: the parsed body of the last response, list or not. */
    var tasks: Fetch.Body<Task>
    var isLoading: bool
    var params: P.Params
    var date: Option<int>
    var statusFilter: string
    var searchTerm: string
    var isDownloading: Option<string>
    var isSampling: Option<string>

    constructor()
      ensures tasks == Fetch.List([]) && !isLoading && params == P.Defaults
      ensures date == None && statusFilter == AllStatuses && searchTerm == ""
      ensures isDownloading == None && isSampling == None
    {
      tasks := Fetch.List([]);
      isLoading := false;
      params := P.Defaults;
      date := None;
      statusFilter := AllStatuses;
      searchTerm := "";
      isDownloading := None;
      isSampling := None;
    }

    /**
     * The list handed to the task table; the filter effect recomputes it whenever its inputs
     * change. `None` when the stored value is not a list: with a filter active the effect's
     * `.filter` throws on it, and without one it reaches the table, whose `.slice` throws.
     */
    function FilteredTasks(): Option<seq<Task>>
      reads this
    {
      match tasks
      case List(items) => Some(FilterTasks(items, date, statusFilter, searchTerm))
      case NotAList => None
    }

    method SetFilters(newDate: Option<int>, newStatus: string, newSearch: string)
      modifies this
      ensures date == newDate && statusFilter == newStatus && searchTerm == newSearch
      ensures tasks == old(tasks) && isLoading == old(isLoading) && params == old(params)
      ensures isDownloading == old(isDownloading) && isSampling == old(isSampling)
    {
      date, statusFilter, searchTerm := newDate, newStatus, newSearch;
    }

    /** `fetchTasks(showLoading)` up to the request: only a foreground fetch raises the flag. */
    method FetchStart(showLoading: bool)
      modifies this
      ensures isLoading == (if showLoading then true else old(isLoading))
      ensures tasks == old(tasks) && params == old(params)
      ensures date == old(date) && statusFilter == old(statusFilter) && searchTerm == old(searchTerm)
      ensures isDownloading == old(isDownloading) && isSampling == old(isSampling)
    {
      if showLoading {
        isLoading := true;
      }
    }

    /**
     * `fetchTasks(showLoading)` once the request has settled: the status is not checked, so any
     * parsed body replaces the stored value, a throw keeps it, and only a foreground fetch
     * lowers the flag.
     */
    method FetchSettle(showLoading: bool, response: Fetch.Response<Task>)
      modifies this
      ensures tasks == Fetch.Apply(old(tasks), Fetch.Received(response))
      ensures isLoading == (if showLoading then false else old(isLoading))
      ensures params == old(params)
      ensures date == old(date) && statusFilter == old(statusFilter) && searchTerm == old(searchTerm)
      ensures isDownloading == old(isDownloading) && isSampling == old(isSampling)
    {
      tasks := Fetch.Apply(tasks, Fetch.Received(response));
      if showLoading {
        isLoading := false;
      }
    }

    /** `handleDownload(taskId)` up to the request. */
    method DownloadStart(taskId: string)
      modifies this
      ensures isDownloading == Some(taskId)
      ensures tasks == old(tasks) && isLoading == old(isLoading) && params == old(params)
      ensures date == old(date) && statusFilter == old(statusFilter) && searchTerm == old(searchTerm)
      ensures isSampling == old(isSampling)
    {
      isDownloading := Some(taskId);
    }

    /**
     * `handleDownload(taskId)` once the request has settled: a file is saved only for an ok
     * response, and the slot is cleared on every path.
     */
    method DownloadSettle(taskId: string, outcome: DownloadOutcome) returns (savedAs: Option<string>)
      modifies this
      ensures savedAs == (if outcome == Downloaded then Some(DownloadFileName(taskId)) else None)
      ensures isDownloading == None
      ensures tasks == old(tasks) && isLoading == old(isLoading) && params == old(params)
      ensures date == old(date) && statusFilter == old(statusFilter) && searchTerm == old(searchTerm)
      ensures isSampling == old(isSampling)
    {
      if outcome == Downloaded {
        savedAs := Some(DownloadFileName(taskId));
      } else {
        savedAs := None;
      }
      isDownloading := None;
    }

    /** `handleSample(taskId, params)` up to the request. */
    method SampleStart(taskId: string)
      modifies this
      ensures isSampling == Some(taskId)
      ensures tasks == old(tasks) && isLoading == old(isLoading) && params == old(params)
      ensures date == old(date) && statusFilter == old(statusFilter) && searchTerm == old(searchTerm)
      ensures isDownloading == old(isDownloading)
    {
      isSampling := Some(taskId);
    }

    /**
     * `handleSample(taskId, params)` once the request has settled: whatever the status, the body
     * is saved; the slot is cleared on every path.
     */
    method SampleSettle(taskId: string, outcome: SampleOutcome) returns (savedAs: Option<string>)
      modifies this
      ensures savedAs == (if outcome == SampleReceived then Some(SampleFileName(taskId)) else None)
      ensures isSampling == None
      ensures tasks == old(tasks) && isLoading == old(isLoading) && params == old(params)
      ensures date == old(date) && statusFilter == old(statusFilter) && searchTerm == old(searchTerm)
      ensures isDownloading == old(isDownloading)
    {
      if outcome == SampleReceived {
        savedAs := Some(SampleFileName(taskId));
      } else {
        savedAs := None;
      }
      isSampling := None;
    }

    /** `onParamsChange(key, value)`: only the named parameter changes. */
    method ChangeParam(key: P.Key, value: Num)
      modifies this
      ensures params == P.Update(old(params), key, value)
      ensures tasks == old(tasks) && isLoading == old(isLoading)
      ensures date == old(date) && statusFilter == old(statusFilter) && searchTerm == old(searchTerm)
      ensures isDownloading == old(isDownloading) && isSampling == old(isSampling)
    {
      params := P.Update(params, key, value);
    }
  }
}

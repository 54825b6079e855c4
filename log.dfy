/**
 * The activity log page (src/pages/Log.tsx): the activity list with its last-known-good fetch
 * rule and the date / search filter pipeline.
 *
 * A calendar day is an abstract key (`int`); `createdDay` is `None` when `created_at` does not
 * parse as a date, and such an activity matches no day.
 */
module ActivityLog {
  import opened Wrappers
  import Text
  import Seqs
  import Fetch

  datatype Activity = Activity(id: int, userName: string, action: string, description: string, createdDay: Option<int>)

  predicate OnDay(day: int, a: Activity)
  {
    a.createdDay == Some(day)
  }

  predicate MatchesSearch(term: string, a: Activity)
  {
    Text.IncludesIgnoringCase(a.userName, term) || Text.IncludesIgnoringCase(a.action, term)
  }

  /** The list the filter effect computes: the date filter, then the search filter, each only when active. */
  function FilterActivities(activities: seq<Activity>, date: Option<int>, searchTerm: string): seq<Activity>
  {
    var byDate := if date.Some? then Seqs.Filter(activities, a => OnDay(date.value, a)) else activities;
    if searchTerm != "" then Seqs.Filter(byDate, a => MatchesSearch(searchTerm, a)) else byDate
  }

  predicate Kept(date: Option<int>, searchTerm: string, a: Activity)
  {
    (date.Some? ==> OnDay(date.value, a)) && (searchTerm != "" ==> MatchesSearch(searchTerm, a))
  }

  /**
   * The shown list is the activity list with some entries left out, in the same order; an
   * activity is shown exactly when its day is the selected one (if any) and its user name or
   * action contains the search text, ignoring case (if any).
   */
  lemma {:induction false} FilteredActivitiesAreTheKeptOnes(activities: seq<Activity>, date: Option<int>, searchTerm: string, a: Activity)
    ensures Seqs.IsSubsequence(FilterActivities(activities, date, searchTerm), activities)
    ensures a in FilterActivities(activities, date, searchTerm) <==> a in activities && Kept(date, searchTerm, a)
  {
    var byDate := if date.Some? then Seqs.Filter(activities, x => OnDay(date.value, x)) else activities;
    if date.Some? {
      Seqs.FilterIsSubsequence(activities, x => OnDay(date.value, x));
      Seqs.FilterMembership(activities, x => OnDay(date.value, x), a);
    } else {
      Seqs.SubsequenceReflexive(activities);
    }
    if searchTerm != "" {
      Seqs.FilterIsSubsequence(byDate, x => MatchesSearch(searchTerm, x));
      Seqs.FilterMembership(byDate, x => MatchesSearch(searchTerm, x), a);
      Seqs.SubsequenceTransitive(FilterActivities(activities, date, searchTerm), byDate, activities);
    }
  }

  /** With no date and no search text, every activity is shown. */
  lemma NoFilterShowsAll(activities: seq<Activity>)
    ensures FilterActivities(activities, None, "") == activities
  {
  }

  class LogPage {
    /** What `setActivities` last stored: the parsed body of the last response, list or not. */
    var activities: Fetch.Body<Activity>
    var isLoading: bool
    var date: Option<int>
    var searchTerm: string

    constructor()
      ensures activities == Fetch.List([]) && !isLoading && date == None && searchTerm == ""
    {
      activities := Fetch.List([]);
      isLoading := false;
      date := None;
      searchTerm := "";
    }

    /**
     * The list handed to the log table; the filter effect recomputes it whenever its inputs
     * change. `None` when the stored value is not a list: with a filter active the effect's
     * `.filter` throws on it, and without one it reaches the table, whose `.map` throws.
     */
    function FilteredActivities(): Option<seq<Activity>>
      reads this
    {
      match activities
      case List(items) => Some(FilterActivities(items, date, searchTerm))
      case NotAList => None
    }

    method SetFilters(newDate: Option<int>, newSearch: string)
      modifies this
      ensures date == newDate && searchTerm == newSearch
      ensures activities == old(activities) && isLoading == old(isLoading)
    {
      date, searchTerm := newDate, newSearch;
    }

    /** `fetchActivities(showLoading)` up to the request: only a foreground fetch raises the flag. */
    method FetchStart(showLoading: bool)
      modifies this
      ensures isLoading == (if showLoading then true else old(isLoading))
      ensures activities == old(activities) && date == old(date) && searchTerm == old(searchTerm)
    {
      if showLoading {
        isLoading := true;
      }
    }

    /**
     * `fetchActivities(showLoading)` once the request has settled: the status is not checked, so
     * any parsed body replaces the stored value, a throw keeps it, and only a foreground fetch
     * lowers the flag.
     */
    method FetchSettle(showLoading: bool, response: Fetch.Response<Activity>)
      modifies this
      ensures activities == Fetch.Apply(old(activities), Fetch.Received(response))
      ensures isLoading == (if showLoading then false else old(isLoading))
      ensures date == old(date) && searchTerm == old(searchTerm)
    {
      activities := Fetch.Apply(activities, Fetch.Received(response));
      if showLoading {
        isLoading := false;
      }
    }
  }
}

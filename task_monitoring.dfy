/**
 * The task table (src/components/TaskMonitoring.tsx): pagination with clamped stepping, the
 * status badge, the duration text, the per-row action rules and the sampling submenu.
 */
module TaskMonitoring {
  import opened Wrappers
  import Text
  import P = Params

  // ---------------------------------------------------------------- pagination

  const ItemsPerPage: nat := 10

  function Min(a: int, b: int): int { if a <= b then a else b }

  function Max(a: int, b: int): int { if a >= b then a else b }

  /** `Math.ceil(n / 10)`. */
  function TotalPages(n: nat): (pages: nat)
    ensures pages == 0 <==> n == 0
    ensures n <= pages * ItemsPerPage
    ensures pages > 0 ==> (pages - 1) * ItemsPerPage < n
  {
    (n + ItemsPerPage - 1) / ItemsPerPage
  }

  /** `tasks.slice((page - 1) * 10, (page - 1) * 10 + 10)`. */
  function PageItems<T>(s: seq<T>, page: nat): (items: seq<T>)
    requires page >= 1
    ensures |items| <= ItemsPerPage
    ensures items != [] ==> (page - 1) * ItemsPerPage + |items| <= |s|
    ensures forall i :: 0 <= i < |items| ==> items[i] == s[(page - 1) * ItemsPerPage + i]
    ensures page <= TotalPages(|s|) ==> |items| == Min(ItemsPerPage, |s| - (page - 1) * ItemsPerPage) && |items| >= 1
    ensures page > TotalPages(|s|) ==> items == []
  {
    var start := (page - 1) * ItemsPerPage;
    if start >= |s| then [] else s[start..Min(start + ItemsPerPage, |s|)]
  }

  /** Pages 1 to `k`, one after the other. */
  function Pages<T>(s: seq<T>, k: nat): seq<T>
  {
    if k == 0 then [] else Pages(s, k - 1) + PageItems(s, k)
  }

  lemma {:induction false} PagesArePrefix<T>(s: seq<T>, k: nat)
    requires k <= TotalPages(|s|)
    ensures Pages(s, k) == s[..Min(k * ItemsPerPage, |s|)]
  {
    if k > 0 {
      PagesArePrefix(s, k - 1);
      var start := (k - 1) * ItemsPerPage;
      var end := Min(start + ItemsPerPage, |s|);
      assert k * ItemsPerPage == start + ItemsPerPage;
      assert start < |s|;
      assert Min(start, |s|) == start;
      assert PageItems(s, k) == s[start..end];
      assert s[..end] == s[..start] + s[start..end];
    }
  }

  /** Reading every page in order gives back the whole list, each item once. */
  lemma PagesPartitionTheList<T>(s: seq<T>)
    ensures Pages(s, TotalPages(|s|)) == s
  {
    PagesArePrefix(s, TotalPages(|s|));
  }

  /** The Previous button's step. */
  function PreviousPage(page: int): int
  {
    Max(page - 1, 1)
  }

  /** The Next button's step. */
  function NextPage(page: int, count: nat): int
  {
    Min(page + 1, TotalPages(count))
  }

  /** The controls are shown only for a non-empty list. */
  predicate ControlsShown(count: nat) { count > 0 }

  predicate PreviousDisabled(page: int) { page == 1 }

  predicate NextDisabled(page: int, count: nat) { page == TotalPages(count) }

  /**
   * Previous never goes below page 1 and Next never goes past the last page; a button is
   * disabled exactly where its step would leave the page where it is.
   */
  lemma PagingStaysInRange(page: int, count: nat)
    requires page >= 1 && ControlsShown(count)
    ensures 1 <= PreviousPage(page) <= page
    ensures PreviousPage(page) == page <==> PreviousDisabled(page)
    ensures 1 <= NextPage(page, count) <= TotalPages(count)
    ensures page < TotalPages(count) ==> NextPage(page, count) == page + 1
    ensures NextPage(page, count) == page <==> NextDisabled(page, count)
  {
  }

  /**
   * The page is not reset when the list shrinks: a page past the end shows no row, and Next,
   * still enabled there, jumps back to the last page.
   */
  lemma StalePage<T>(s: seq<T>, page: nat)
    requires page > TotalPages(|s|) && ControlsShown(|s|)
    ensures PageItems(s, page) == []
    ensures !NextDisabled(page, |s|) && NextPage(page, |s|) == TotalPages(|s|)
  {
  }

  // ---------------------------------------------------------------- status badge

  /** `Unstyled`: the configuration has no `bg` or `textColor`, so the classes read "undefined". */
  datatype Tone = Green | Yellow | Grey | Neutral | Unstyled

  datatype StatusIcon = CheckIcon | ClockIcon

  datatype Badge = Badge(caption: string, tone: Tone, icon: Option<StatusIcon>)

  /**
   * Lowercase keys that the configuration object inherits from `Object.prototype`: looking one
   * of them up yields a truthy value that is not a configuration, so the fallback is not taken.
   */
  predicate InheritedKey(key: string)
  {
    key == "constructor" || key == "__proto__"
  }

  /**
   * `getStatusBadge(status)`: known statuses get a fixed label and tone, an inherited key a badge
   * with no text and no style, any other status shows itself.
   */
  function StatusBadge(status: string): Badge
  {
    var key := Text.ToLower(status);
    var icon := if status == "completed" then Some(CheckIcon) else if status == "running" then Some(ClockIcon) else None;
    if key == "completed" then Badge("Completed", Green, icon)
    else if key == "running" then Badge("Running", Yellow, icon)
    else if key == "pending" then Badge("Pending", Grey, icon)
    else if InheritedKey(key) then Badge("", Unstyled, icon)
    else Badge(status, Neutral, icon)
  }

  /** The badge of a row, which is given the lowercased status. */
  function RowBadge(status: string): Badge
  {
    StatusBadge(Text.ToLower(status))
  }

  /**
   * A row's badge: the three known statuses, in any case, get their fixed label, tone and icon;
   * a status that lowercases to an inherited key gets an empty, unstyled badge; any other status
   * is shown as its own lowercased text with the neutral tone and no icon.
   */
  lemma RowBadgeCases(status: string)
    ensures var key := Text.ToLower(status); var b := RowBadge(status);
      && (key == "completed" ==> b == Badge("Completed", Green, Some(CheckIcon)))
      && (key == "running" ==> b == Badge("Running", Yellow, Some(ClockIcon)))
      && (key == "pending" ==> b == Badge("Pending", Grey, None))
      && (InheritedKey(key) ==> b == Badge("", Unstyled, None))
      && (key != "completed" && key != "running" && key != "pending" && !InheritedKey(key) ==>
            b == Badge(key, Neutral, None))
  {
    Text.ToLowerIdempotent(status);
  }

  // ---------------------------------------------------------------- duration

  /** JavaScript's `%`: the remainder takes the sign of the dividend. */
  function JsRem(a: int, b: int): int
    requires b > 0
  {
    if a >= 0 then a % b else -((-a) % b)
  }

  /** The duration cell for a duration in whole seconds: "-" when absent or 0. */
  function FormatDuration(duration: Option<int>): string
  {
    if duration.None? || duration.value == 0 then "-"
    else
      var d := duration.value;
      var minutes := JsRem(d / 60, 60);
      (if d >= 3600 then Text.IntToString(d / 3600) + "h " else "")
      + (if minutes > 0 then Text.IntToString(minutes) + "m " else "")
      + Text.IntToString(JsRem(d, 60)) + "s"
  }

  /**
   * For a positive duration the text lists hours, minutes of the hour and seconds of the minute,
   * which add back up to the duration; the hours part appears only from one hour on and the
   * minutes part only when there are minutes; the seconds part is always there.
   */
  lemma DurationParts(d: int)
    requires d > 0
    ensures var h, m, s := d / 3600, d / 60 % 60, d % 60;
      && h * 3600 + m * 60 + s == d
      && 0 <= m < 60 && 0 <= s < 60
      && (h > 0 <==> d >= 3600)
      && FormatDuration(Some(d))
         == (if h > 0 then Text.IntToString(h) + "h " else "")
          + (if m > 0 then Text.IntToString(m) + "m " else "")
          + Text.IntToString(s) + "s"
  {
    var h, m, s := d / 3600, d / 60 % 60, d % 60;
    assert d / 60 == h * 60 + m;
  }

  // ---------------------------------------------------------------- row actions

  /** Only a completed task (in any case) has the actions menu. */
  predicate HasActionsMenu(status: string)
  {
    Text.ToLower(status) == "completed"
  }

  predicate DownloadDisabled(isDownloading: Option<string>, taskId: string)
  {
    isDownloading == Some(taskId)
  }

  predicate ProcessDisabled(isSampling: Option<string>, taskId: string, params: P.Params)
  {
    isSampling == Some(taskId) || !P.HasAllValidParams(params)
  }

  /**
   * Process is enabled exactly when that task is not being sampled and every parameter is
   * finite and not negative; so an input that emitted `-1` or `NaN` disables it.
   */
  lemma ProcessGate(isSampling: Option<string>, taskId: string, params: P.Params)
    ensures !ProcessDisabled(isSampling, taskId, params)
        <==> isSampling != Some(taskId) && forall key :: P.ValidParam(P.Get(params, key))
  {
    P.ValidIffEachKeyValid(params);
  }

  /** The actions menu is offered on exactly the rows whose badge reads "Completed". */
  lemma ActionsMenuOnCompletedBadges(status: string)
    ensures HasActionsMenu(status) <==> RowBadge(status).caption == "Completed"
  {
    RowBadgeCases(status);
    Text.ToLowerIdempotent(status);
  }

  /** The download slot holds one task id, so at most one row has Download disabled. */
  lemma OneDownloadDisabled(isDownloading: Option<string>, a: string, b: string)
    requires DownloadDisabled(isDownloading, a) && DownloadDisabled(isDownloading, b)
    ensures a == b
  {
  }

  // ---------------------------------------------------------------- the table's own state

  /** The table's state: the page shown and the sampling submenu, one open flag shared by all rows. */
  class TaskTable {
    var currentPage: nat
    var isDropdownOpen: bool

    constructor()
      ensures currentPage == 1 && !isDropdownOpen
    {
      currentPage := 1;
      isDropdownOpen := false;
    }

    /** The rows shown for the (filtered) list `tasks`. */
    function CurrentTasks<T>(tasks: seq<T>): seq<T>
      reads this
      requires currentPage >= 1
    {
      PageItems(tasks, currentPage)
    }

    method Previous()
      modifies this
      ensures currentPage == PreviousPage(old(currentPage))
      ensures isDropdownOpen == old(isDropdownOpen)
    {
      currentPage := Max(currentPage - 1, 1);
    }

    /** Next, reachable only while the list of `count` tasks is non-empty. */
    method Next(count: nat)
      requires ControlsShown(count)
      modifies this
      ensures currentPage == NextPage(old(currentPage), count)
      ensures isDropdownOpen == old(isDropdownOpen)
    {
      currentPage := Min(currentPage + 1, TotalPages(count));
    }

    /** The submenu opens or closes; closing it resets the parameters. Returns the parameters after the change. */
    method SubmenuOpenChange(open: bool, params: P.Params) returns (next: P.Params)
      modifies this
      ensures isDropdownOpen == open
      ensures next == if open then params else P.Defaults
      ensures currentPage == old(currentPage)
    {
      next := params;
      if !open {
        next := P.ResetValues(params);
        P.ResetGivesValidDefaults(params);
      }
      isDropdownOpen := open;
    }
  }
}

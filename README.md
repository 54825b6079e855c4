# Client policy of the auto-labeling admin console

This project models the rules that the React admin console of the auto-labeling service runs in the browser. It also proves properties about those rules in Dafny. The server does the real work. The client decides the following:

- who may see which page: the route guard, the route table, the home redirect and the sidebar menu;
- how the session lives and dies: restore from storage, login, logout, and the expiry timer;
- how the decimal parameter field turns text into a number or the `-1` sentinel;
- how task, activity and user lists are filtered, paged and summed;
- how the upload, download, sampling and change-password handlers guard their requests and manage their busy flags.

Each core source file is one module:

| module | file |
|---|---|
| `ProtectedRoute` | `protected_route.dfy` |
| `AppRoutes` | `app.dfy` |
| `AppSidebar` | `app_sidebar.dfy` |
| `Auth` | `auth.dfy` |
| `DecimalInput` | `decimal_input.dfy` |
| `TaskMonitoring` | `task_monitoring.dfy` |
| `Monitoring` | `monitoring.dfy` |
| `ActivityLog` | `log.dfy` |
| `UserManagement` | `user_management.dfy` |
| `FileUpload` | `file_upload.dfy` |
| `CategorySelect` | `category_select.dfy` |
| `ParametersSelect` | `parameters_select.dfy` |

Some modules are shared:

- `Params` holds the sampling-parameter record and its validity gate.
- `Numbers` holds a JavaScript number: a finite real, or `NaN`.
- `Fetch` holds the rule that a failed fetch keeps the last list, and what a fetch that does not check the status stores.
- `Text`, `Seqs` and `Wrappers` hold string, sequence and option helpers.

Component state that the source updates in place becomes a class with methods. Examples are the auth provider, the decimal field, each page, the task table and the upload buttons. Pure rules become functions and lemmas.

An `async` handler with one `await` becomes two methods:

- a `Start` method for the part before the await;
- a `Settle` method for the part after it, which takes the network outcome as a parameter.

So the value of a busy flag while the request is in flight can be observed.

The auth provider's methods are proved against pure functions on a `Session` value (`LogoutSpec`, `ScheduleSpec`, `RestoreSpec`, `LoginSpec`, `FireSpec`). The session properties are proved about those functions.

The model keeps these behaviours of the code:

- `logout` does not cancel the pending expiry timer. The timer later fires a second logout, and that logout changes nothing (`Auth.TimerAfterLogoutIsHarmless`).
- Restoring an undecodable stored token removes it from storage but leaves it in the `token` state.
- `login` with an ok response whose token does not decode has already stored the token in state and in storage before it resolves to `false`.
- Neither `fetchTasks` nor `fetchActivities` checks `response.ok`: any parsed body replaces the stored value, even a JSON error object that is not a list (`Fetch.UncheckedStoresAnyBody`). The page then has no list to show: the filter effect or the table throws on it (`FilteredTasks` and `FilteredActivities` are `None`).
- `handleSample` saves the body whatever the response status.
- A lone `-` matches the decimal pattern. It emits `NaN`, not `-1`. Leaving the field then displays `NaN`, and leaving it again displays `Invalid Value` (`DecimalInput.LoneMinus`).
- The sentinel `-1` is also an accepted value: typing `-1` emits what invalid text emits (`DecimalInput.SentinelCollides`).
- The parameters form's upload button looks only at parameter validity. It is not disabled during an upload, and it is not disabled without a file.
- The task table is not sent back to page 1 when the list shrinks (`TaskMonitoring.StalePage`).
- The user search has no guard for an empty search: an empty term keeps every user with at least one text field.
- A user whose role is neither `admin` nor `user` gets the user menu, and every entry of that menu redirects to `/unauthorized`.
- The row badge is given the lowercased status, so an unknown status is shown lowercased.
- The status `constructor` or `__proto__`, in any case, finds an entry the badge configuration inherits from `Object.prototype`, so the badge shows no text and no colours (`TaskMonitoring.RowBadgeCases`).
- A token without an `exp` claim stores the text `undefined` as the expiry. It reads back as `NaN`, so the timer is armed with no delay and the user is logged out when it fires (`Auth.MissingExpLogsOutAtOnce`).

## Model

| member | source | states |
|---|---|---|
| ProtectedRoute.GuardCases | src/components/ProtectedRoute.tsx:14-22 | While loading the guard renders nothing. Not loading and no user redirects to `/login`. A user whose role is not in the given roles goes to `/unauthorized`. The children are rendered exactly when there is no role list or the role is in it. |
| ProtectedRoute.GuardSeesOnlyTheRole | src/components/ProtectedRoute.tsx:11-23 | Two users with the same role get the same decision: only `loading`, the presence of a user, its role and `allowedRoles` matter. |
| ProtectedRoute.GuardMonotoneInRoles | src/components/ProtectedRoute.tsx:18-22 | Widening the allowed roles never takes access away. |
| AppRoutes.HomeRedirectCases | src/App.tsx:24-32 | `/` shows nothing while loading, redirects to `/login` with no user, and redirects to `/upload` for any user. |
| AppRoutes.UsersIsAdminOnly | src/App.tsx:64-71 | `/users` shows the user-management page exactly for role `admin`; any other signed-in user is sent to `/unauthorized`. |
| AppRoutes.SharedPagesAdmitBothRoles | src/App.tsx:55-76 | `/monitoring`, `/upload` and `/activity` show their page exactly for roles `admin` and `user`. |
| AppRoutes.OpenPages | src/App.tsx:42-79 | `/login`, `/reset-password` and `/unauthorized` show their page whatever the session; any unknown path shows NotFound. |
| AppSidebar.MenuByRole | src/components/AppSidebar.tsx:28-90 | Role `admin` gets the four-item menu with `/users`; any other role, or no user, gets the three-item menu without `/users`. |
| AppSidebar.AtMostOneActive | src/components/AppSidebar.tsx:85-87 | `isActive` is exact equality, so at most one menu item is active for any path. |
| AppSidebar.MenuMatchesRoutes | src/components/AppSidebar.tsx:89-90 | For roles `admin` and `user`, every item of the chosen menu leads to a page the route table shows them. |
| AppSidebar.UnknownRoleMenuLeadsNowhere | src/components/AppSidebar.tsx:89-90 | For any other role, every menu item leads to `/unauthorized`. |
| AppSidebar.PasswordChecks | src/components/AppSidebar.tsx:92-99 | The request is sent exactly when the new password differs from the current one and equals the confirmation. The "same as current" check wins over the mismatch check. |
| AppSidebar.ChangePasswordSettle | src/components/AppSidebar.tsx:113-122 | A successful change logs the session out; a failure leaves it unchanged. |
| AppSidebar.LogoutAndNavigate | src/components/AppSidebar.tsx:176-178 | The logout button logs out and then navigates to `/login`. |
| Auth.LogoutSpec | src/hooks/use-auth.tsx:71-76 | Logout clears token and user and removes `token` and `exp` from storage. Every other storage key, `loading` and the timer are untouched. |
| Auth.ScheduleSpec | src/hooks/use-auth.tsx:80-95 | `loading` is kept. Either user, token and storage are all kept, or the session is exactly the logout of the old one. Storage is unchanged or loses just `token` and `exp`. With no stored `exp` no timer is left and nothing else changes. With a stored `exp` and no timer, the user is logged out. A timer is armed only with a stored `exp`, at the given clock, with user and storage kept. Its delay is positive when the stored `exp` parses and 0 when it does not. The delay's value is in `Auth.ExpiryReadBack`, and the single-timer property in `Auth.ScheduleCancelsPrevious`. |
| Auth.LogoutIdempotent | src/hooks/use-auth.tsx:71-76 | Logging out twice is the same as logging out once. |
| Auth.TimerAfterLogoutIsHarmless | src/hooks/use-auth.tsx:71-93 | Logout leaves the pending timer armed. When it fires, it logs out again and changes nothing else. |
| Auth.ScheduleCancelsPrevious | src/hooks/use-auth.tsx:80-83 | What scheduling leaves behind does not depend on the previously armed timer, so at most one timer is ever pending. |
| Auth.OperationsPreserveValid | src/hooks/use-auth.tsx:29-95 | Logout, scheduling, restore and a timer firing keep the session invariant. The invariant: a signed-in user was decoded from the token held in state and in storage, and the stored `exp` is that user's expiry as text. |
| Auth.LoginPreservesValid | src/hooks/use-auth.tsx:54-67 | Login keeps the invariant except in one case: a 2xx response with a non-empty token that does not decode while a user is signed in. |
| Auth.SignInValid | src/hooks/use-auth.tsx:33-37 | Signing in a decoded user from a stored token establishes the invariant. |
| Auth.RestoreOutcomes | src/hooks/use-auth.tsx:29-42 | Restore ends with `loading` false on every path. With no stored token, no user. With an undecodable token, the stored token is removed from storage but kept in the `token` state, and there is no user. With a decodable token, the token is kept, the user is set, `exp` is stored and one timer is armed, or the session is logged out when already expired. |
| Auth.ExpiryReadBack | src/hooks/use-auth.tsx:36-37 | Expiry is scheduled from the `exp` just stored, read back unchanged, with delay `exp*1000 - now`. A token without `exp` stores `undefined`, which does not parse, so the timer is armed with no delay. |
| Auth.UndefinedDoesNotParse | src/hooks/use-auth.tsx:87 | `parseInt("undefined")` is `NaN`. |
| Auth.MissingExpLogsOutAtOnce | src/hooks/use-auth.tsx:33-37 | Signing in a token without `exp` sets the user, stores `undefined` as the expiry and arms a timer with no delay. When that timer fires, user and token are cleared. |
| Auth.LoginOutcomes | src/hooks/use-auth.tsx:54-68 | Login returns true exactly for a 2xx response with a non-empty token that decodes. Then the token and the user are set and one timer is armed, or the session is logged out when already expired. A token that fails to decode has already been stored. On every other false path the session is unchanged. |
| Text.ParseIntOfIntToString | src/hooks/use-auth.tsx:87 | `parseInt` of the plain decimal text of `n` gives back `n` for every integer. That is `parseInt(String(n))` for integers below 10^21 in magnitude, which covers a token's `exp`. |
| Auth.AuthProvider.constructor | src/hooks/use-auth.tsx:25-27 | A new provider has no token, no user, `loading` true and no timer. |
| Auth.AuthProvider.Logout | src/hooks/use-auth.tsx:71-76 | The new state is `LogoutSpec` of the old. |
| Auth.AuthProvider.ScheduleAutoLogout | src/hooks/use-auth.tsx:80-95 | The new state is `ScheduleSpec` of the old at the given clock. |
| Auth.AuthProvider.Restore | src/hooks/use-auth.tsx:29-43 | The new state is `RestoreSpec` of the old. |
| Auth.AuthProvider.Login | src/hooks/use-auth.tsx:46-69 | The new state and the result are `LoginSpec` of the old state and the response. |
| Auth.AuthProvider.FireTimer | src/hooks/use-auth.tsx:91-93 | A pending timer fires `logout` and leaves no timer pending. |
| Auth.AuthProvider.Teardown | src/hooks/use-auth.tsx:97-103 | Unmounting cancels the pending timer and changes nothing else. |
| DecimalInput.LexRender | src/components/ui/decimal-input.tsx:29 | Every well-formed decimal's text matches the pattern and lexes back to that decimal. |
| DecimalInput.RenderLex | src/components/ui/decimal-input.tsx:29 | Every text that matches the pattern is the text of a well-formed decimal. |
| DecimalInput.ChangeOfDecimalText | src/components/ui/decimal-input.tsx:27-31 | Typing a well-formed decimal shows it as typed and emits its exact value. |
| DecimalInput.ChangeRejections | src/components/ui/decimal-input.tsx:29-33 | The empty text, `.` and `1.` are rejected and emit `-1`. |
| DecimalInput.SentinelCollides | src/components/ui/decimal-input.tsx:29-33 | `-1` is accepted and emits the same value as the rejected `abc`. |
| DecimalInput.LoneMinus | src/components/ui/decimal-input.tsx:29-49 | Typing `-` emits `NaN`. Leaving the field shows `NaN`, and leaving it again shows `Invalid Value` with `-1`. |
| DecimalInput.CanonicalValue | src/components/ui/decimal-input.tsx:46-47 | Normalising a decimal with a digit keeps its value and yields a well-formed decimal with a whole part. |
| DecimalInput.CanonicalIsFixpoint | src/components/ui/decimal-input.tsx:47 | Normalising twice is normalising once. |
| DecimalInput.BlurOfUnmatched | src/components/ui/decimal-input.tsx:37-43 | Text that does not match after comma replacement and trimming becomes `Invalid Value` and emits `-1`. |
| DecimalInput.BlurOfCanonical | src/components/ui/decimal-input.tsx:37-49 | Leaving a field that shows a normalised decimal keeps that text and emits its value. |
| DecimalInput.InvalidValueStaysInvalid | src/components/ui/decimal-input.tsx:41-43 | Leaving a field that shows `Invalid Value` keeps it and emits `-1`. |
| DecimalInput.BlurIdempotentUnlessNaN | src/components/ui/decimal-input.tsx:37-49 | Normalising a display that the blur handler has already normalised changes nothing, unless it is `NaN`: a plain-decimal display keeps its text and value, and `Invalid Value` stays invalid. |
| DecimalInput.DecimalInputField.constructor | src/components/ui/decimal-input.tsx:19 | The display starts as the given value's text, or empty when there is none. |
| DecimalInput.DecimalInputField.Focus | src/components/ui/decimal-input.tsx:21-24 | Focus clears the display and emits `-1`. |
| DecimalInput.DecimalInputField.Change | src/components/ui/decimal-input.tsx:26-35 | The display and the emitted value are those of `ChangeResult` for the typed text. |
| DecimalInput.DecimalInputField.Blur | src/components/ui/decimal-input.tsx:37-50 | The display and the emitted value are those of `BlurResult` for the old display. |
| Params.Update | src/pages/Monitoring.tsx:268-270 | Updating a key sets exactly that key and leaves the other two unchanged. |
| Params.ValidIffEachKeyValid | src/components/TaskMonitoring.tsx:103-108 | The parameters are valid exactly when all three values are finite and not negative. |
| Params.InvalidValueDisables | src/components/TaskMonitoring.tsx:103-108 | Setting any key to `-1` or `NaN` makes the parameters invalid. |
| Params.ResetGivesValidDefaults | src/components/TaskMonitoring.tsx:109-113 | The three resets give margin 0.05, confidence 0.95 and distribution 0.5 whatever the old values, and these are valid. |
| TaskMonitoring.TotalPages | src/components/TaskMonitoring.tsx:90 | The page count is the ceiling of n/10: zero exactly for an empty list, enough pages for every item, and no empty last page. |
| TaskMonitoring.PageItems | src/components/TaskMonitoring.tsx:91-92 | Page p shows at most 10 items, equal to those at positions from (p-1)*10 in order. It shows `min(10, rest)` items up to the last page and nothing after it. |
| TaskMonitoring.PagesArePrefix | src/components/TaskMonitoring.tsx:89-92 | The first k pages put together are the list's prefix of length `min(10k, n)`. |
| TaskMonitoring.PagesPartitionTheList | src/components/TaskMonitoring.tsx:89-92 | All the pages put together give back the whole list. |
| TaskMonitoring.PagingStaysInRange | src/components/TaskMonitoring.tsx:293-302 | Previous never goes below 1 and Next never goes above the page count. Each button changes the page exactly when it is not disabled. |
| TaskMonitoring.StalePage | src/components/TaskMonitoring.tsx:88-92 | A page left past the end after the list shrinks shows no rows, and Next then jumps back to the last page. |
| TaskMonitoring.RowBadgeCases | src/components/TaskMonitoring.tsx:35-57 | Completed, running and pending, in any case, get their fixed label, tone and icon. A status that lowercases to `constructor` or `__proto__` gets an empty badge with no colours and no icon. Any other status shows its lowercased text with the neutral tone and no icon. |
| TaskMonitoring.DurationParts | src/components/TaskMonitoring.tsx:166-172 | For a positive duration, h*3600 + m*60 + s is the duration with m and s below 60. `Nh` appears only from one hour on, `Mm` only when there are minutes, and `Ss` always. |
| TaskMonitoring.ActionsMenuOnCompletedBadges | src/components/TaskMonitoring.tsx:189 | The actions menu appears on exactly the rows whose badge reads "Completed". |
| TaskMonitoring.OneDownloadDisabled | src/components/TaskMonitoring.tsx:208 | Download is disabled on at most one task id, the one downloading. |
| TaskMonitoring.ProcessGate | src/components/TaskMonitoring.tsx:265 | Process is enabled exactly when that task is not being sampled and every parameter is finite and not negative. |
| TaskMonitoring.TaskTable.constructor | src/components/TaskMonitoring.tsx:88-93 | The table starts on page 1 with the submenu closed. |
| TaskMonitoring.TaskTable.Previous | src/components/TaskMonitoring.tsx:294 | The page becomes `max(p-1, 1)`. |
| TaskMonitoring.TaskTable.Next | src/components/TaskMonitoring.tsx:302 | The page becomes `min(p+1, totalPages)`. |
| TaskMonitoring.TaskTable.SubmenuOpenChange | src/components/TaskMonitoring.tsx:223-227 | The shared open flag follows the event, and closing resets the parameters to the defaults. |
| Fetch.UncheckedStoresAnyBody | src/pages/Monitoring.tsx:123-125 | With the status unchecked, the stored value becomes the response's parsed body, list or not, whether or not the response is ok; a throw keeps the old value. |
| Fetch.ShownListIsLastKnownGood | src/pages/Monitoring.tsx:124-128 | After any sequence of fetches, the list is the most recent loaded body, or the initial list if none loaded. |
| Monitoring.FilterTasksIsOneFilter | src/pages/Monitoring.tsx:134-153 | The three successive filters equal one filter by the conjunction of the active tests. |
| Monitoring.FilteredTasksAreTheKeptOnes | src/pages/Monitoring.tsx:134-153 | The filtered tasks are a subsequence of the tasks, and a task is in it exactly when it passes every active filter. The date is compared by day key, the status lowercased, and the id or file name by case-insensitive search. |
| Monitoring.NoFilterShowsAll | src/pages/Monitoring.tsx:135-152 | With no date, status `all` and an empty search, the filtered list is the task list. |
| Monitoring.DownloadFileName | src/pages/Monitoring.tsx:98 | The name is `task_`, the id, then `.xlsx`. |
| Monitoring.SampleFileName | src/pages/Monitoring.tsx:65 | The name is `sampled_`, the id, then `.xlsx`. |
| Monitoring.FileNamesAreDistinct | src/pages/Monitoring.tsx:65-98 | Different ids give different names, and no download name equals a sample name. |
| Monitoring.MonitoringPage.constructor | src/pages/Monitoring.tsx:31-44 | The page starts empty, not loading, with default parameters, no filters and no busy ids. |
| Monitoring.MonitoringPage.SetFilters | src/pages/Monitoring.tsx:39-41 | Sets the three filters and nothing else. |
| Monitoring.MonitoringPage.FetchStart | src/pages/Monitoring.tsx:110-115 | Only a foreground fetch raises `isLoading`; nothing else changes. |
| Monitoring.MonitoringPage.FetchSettle | src/pages/Monitoring.tsx:123-131 | Any parsed body, ok or not and list or not, replaces the stored value, and a throw keeps it. Only a foreground fetch lowers `isLoading`; nothing else changes. |
| Monitoring.MonitoringPage.DownloadStart | src/pages/Monitoring.tsx:78-80 | The downloading slot holds the task id; nothing else changes. |
| Monitoring.MonitoringPage.DownloadSettle | src/pages/Monitoring.tsx:89-107 | A file named `task_<id>.xlsx` is saved only for an ok response. The slot is cleared on every path, the early return included. |
| Monitoring.MonitoringPage.SampleStart | src/pages/Monitoring.tsx:47-49 | The sampling slot holds the task id; nothing else changes. |
| Monitoring.MonitoringPage.SampleSettle | src/pages/Monitoring.tsx:61-75 | `sampled_<id>.xlsx` is saved for any response but not after a thrown error. The slot is cleared on every path. |
| Monitoring.MonitoringPage.ChangeParam | src/pages/Monitoring.tsx:268-270 | Only the named parameter changes. |
| ActivityLog.FilteredActivitiesAreTheKeptOnes | src/pages/Log.tsx:53-67 | The filtered activities are a subsequence of the activities, and one is kept exactly when it is on the selected day and its user name or action contains the search, ignoring case. |
| ActivityLog.NoFilterShowsAll | src/pages/Log.tsx:53-67 | With no date and an empty search, the filtered list is the activity list. |
| ActivityLog.LogPage.constructor | src/pages/Log.tsx:23-28 | The page starts empty, not loading, with no filters. |
| ActivityLog.LogPage.SetFilters | src/pages/Log.tsx:27-28 | Sets the two filters and nothing else. |
| ActivityLog.LogPage.FetchStart | src/pages/Log.tsx:29-34 | Only a foreground fetch raises `isLoading`. |
| ActivityLog.LogPage.FetchSettle | src/pages/Log.tsx:42-50 | Any parsed body, ok or not and list or not, replaces the stored value, and a throw keeps it, and only a foreground fetch lowers `isLoading`. |
| UserManagement.InitialsAreWordStarts | src/pages/UserManagement.tsx:148-154 | The initials are the first two of the uppercased first characters of the space-separated words. Empty words add nothing, there are at most two characters, and never a space. |
| UserManagement.FilteredUsersAreTheMatchingOnes | src/pages/UserManagement.tsx:156-162 | The shown users are a subsequence of the users. A user is shown exactly when a present full name, user name, email or role contains the term, ignoring case. |
| UserManagement.EmptySearchKeepsUsersWithAField | src/pages/UserManagement.tsx:156-162 | An empty search keeps exactly the users with at least one of the four fields. |
| UserManagement.RoleBadgeCases | src/pages/UserManagement.tsx:101-133 | Only `admin` gets the admin style and the crown. Any other role falls back to the user style. The label is the role with its first letter uppercased. |
| UserManagement.RowRoleBadgeCases | src/pages/UserManagement.tsx:425 | A user with a role gets that role's badge, the admin style exactly for `admin`. A user without a role gets no badge, since `getRoleBadge` would throw on it. |
| UserManagement.DeleteGuards | src/pages/UserManagement.tsx:192-197 | The delete request is sent exactly when the confirmation is accepted and the id is not 1. A declined confirmation returns before the id check. |
| UserManagement.TotalTasksMissesTheShownCounts | src/pages/UserManagement.tsx:355 | As written, the card sums `tasksCompleted`: for a user showing 5 tasks with no `tasksCompleted`, the card says 0. |
| UserManagement.TotalTasksIsTheColumnSum | src/pages/UserManagement.tsx:430 | The corrected total is the sum of the "Tasks Completed" column, each user counting `total_tasks`, or 0 when it is missing. |
| UserManagement.UserManagementPage.constructor | src/pages/UserManagement.tsx:61-70 | The page starts with no users, `loading` true, an empty search, the dialog closed and the empty form. |
| UserManagement.UserManagementPage.FetchUsersStart | src/pages/UserManagement.tsx:72-76 | `loading` is raised and nothing else changes. |
| UserManagement.UserManagementPage.FetchUsersSettle | src/pages/UserManagement.tsx:87-94 | An ok response replaces the list and a failure keeps it; `loading` is lowered on every path. |
| UserManagement.UserManagementPage.SetSearchTerm | src/pages/UserManagement.tsx:375 | Typing in the search box sets the term and nothing else. The table then shows, in order, exactly the users with a present field that contains the term, ignoring case. |
| UserManagement.UserManagementPage.SetAddUserOpen | src/pages/UserManagement.tsx:223 | The add-user dialog's open flag follows the dialog's trigger and close, and Cancel (:290) sets it false. Nothing else changes. |
| UserManagement.UserManagementPage.EditForm | src/pages/UserManagement.tsx:245-277 | Editing a form field changes only the form. |
| UserManagement.UserManagementPage.AddUserSettle | src/pages/UserManagement.tsx:180-186 | A successful add appends the returned user, closes the dialog, resets the form to empty fields with role `user`, and starts a new fetch. A failure changes nothing. |
| FileUpload.SelectCallbackCases | src/components/FileUpload.tsx:20-35 | With no file, no callback fires. An xlsx or xls file is handed to the parent and parsed. Any other type calls `onFileSelect(null)` and `onDataParsed(null)`. Only an accepted type is ever handed on. |
| FileUpload.SplitRowsRoundTrip | src/components/FileUpload.tsx:47-51 | Zero rows means `onDataParsed` is not called. Otherwise the headers followed by the data are the rows. |
| FileUpload.FileInput.HandleFileSelect | src/components/FileUpload.tsx:20-35 | The callbacks are those of `SelectCallbacks`, and the input value is reset to empty in every case. |
| CategorySelect.Categories | src/components/CategorySelect.tsx:8-19 | The category list has 26 entries, all distinct. |
| CategorySelect.EnabledButtonWithoutFile | src/components/CategorySelect.tsx:38-42 | The button does not look at the file: with a category and no file the click is let through and then refused, while with a file it runs. |
| CategorySelect.CategoryUploader.UploadStart | src/components/CategorySelect.tsx:38-45 | The upload starts exactly with both a file and a category, and only then is `isUploading` raised. |
| CategorySelect.CategoryUploader.UploadSettle | src/components/CategorySelect.tsx:49-51 | `isUploading` is lowered after success and failure alike. |
| ParametersSelect.HandleChange | src/components/ParametersSelect.tsx:41-46 | Only the named key changes, and a missing value becomes `NaN`. |
| ParametersSelect.ButtonGate | src/components/ParametersSelect.tsx:100 | The button is enabled exactly when every parameter is finite and not negative. A field that emitted `-1` disables it. |
| ParametersSelect.ParametersUploader.UploadStart | src/components/ParametersSelect.tsx:48-54 | The upload starts exactly when a file is selected, and only then is `isUploading` raised. |
| ParametersSelect.ParametersUploader.UploadSettle | src/components/ParametersSelect.tsx:60-62 | `isUploading` is lowered after every upload attempt. |

## Left out

- Network and browser I/O is not modelled. This covers every `fetch` request, blob and anchor downloads, `alert`, `toast`, `window.confirm` and `FileReader`. A request's result is a parameter of the matching `Settle` method, and `window.confirm` is a boolean parameter of `DecideDelete`.
- `localStorage` is a map from string to string. Both the clock (`Date.now()`) and the decoder (`jwtDecode`) are parameters; the decoder is a partial function from token to claims.
- `XLSX.read` and `sheet_to_json` are not modelled: the parsed rows are an input of `SplitRows`. A parse error, which only shows a toast, is not modelled.
- The 60-second polling interval and overlapping foreground and background fetches are not modelled. Each completed fetch is applied on its own.
- `setTimeout` is not modelled: the expiry timer is one slot that an explicit `FireTimer` step fires. The browser's 32-bit limit on a timer delay is not modelled.
- Floating point is not modelled. A number is an exact real or `NaN`, and `parseFloat` gives the exact value of the matched decimal, with no rounding or overflow to infinity.
- DecimalInput.BlurIdempotentUnlessNaN: the model's normalised display is always plain decimal text. In JavaScript a display such as `1e-7` (from `0.0000001`) or `1e+21` is in exponent notation, and normalising it again gives `Invalid Value`, so the property does not hold for those displays. In the component a second blur is always preceded by a focus, which clears the display.
- Text.ParseIntOfIntToString: `String(n)` switches to exponent notation at 10^21 in magnitude, and `parseInt` then reads only the leading digits. The model's integer text is always plain digits.
- DecimalInput.BlurOfCanonical: the display after leaving the field is the normalised decimal text. JavaScript's exponent notation for very large or very small numbers is not modelled, and neither is the digit string of a value that rounds.
- Case mapping is not full Unicode: `toLowerCase`, `toUpperCase` and the case-insensitive searches map ASCII letters only. Trimming uses the ECMAScript white-space set.
- Dates are not modelled. `Date`, `toDateString` and `toLocaleString` are abstracted as a whole-day key, and the finish-time cell of the task table is left out.
- TaskMonitoring.DurationParts: durations are whole seconds. The model uses JavaScript's remainder for negative values, but a negative or fractional duration's display is not stated.
- Routing is not fully modelled. React Router's case-insensitive matching and trailing slashes are not, and paths are matched exactly.
- The React render cycle is not modelled. `useEffect` re-running the filters is a function of the page's state (`FilteredTasks`, `FilteredActivities`, `Shown`).
- `DecimalInputField` does not follow later changes of its `value` prop. The source's field keeps its own text after mounting, so the model's does too.
- `isInitialLoading` is not modelled: the monitoring and log pages write it but never read it.
- UserManagement.AvatarName: a user with neither full name nor user name would make `getInitials` throw. The model returns `None` instead of the crash.
- UserManagement.RoleBadgeCases: a role equal to an inherited object key (such as `constructor`) would find a non-style entry in `variants[role]`. The model treats every role other than `admin` and `user` as unknown.
- UserManagement.RowRoleBadgeCases: a user with no role makes `getRoleBadge` throw at `role.charAt(0)` and the table fails to render. The model returns `None` instead of the crash.
- Monitoring.MonitoringPage.FilteredTasks and ActivityLog.LogPage.FilteredActivities: a stored body that is not a list makes the page throw while rendering. The model returns `None` and does not model the crash itself.
- UserManagement.UserManagementPage.FetchUsersSettle: its outcome carries only a list. An ok response whose body is not a list would be stored, and that is not modelled.
- Auth.Claims: `exp` is a whole number or missing. A fractional `exp` is not modelled; `parseInt` would truncate it when it is read back.
- Markup is not modelled: JSX, CSS class strings and the icons beyond the status and role badge rules.
- The render-only and plumbing files are not part of this model: the login, reset-password and file-upload pages, the layout, the unauthorized page, the data preview, the file-submit button and the change-password dialog.

## Findings

| source | as written | input that shows it | evidently intended | confidence | as-written member | corrected member |
|---|---|---|---|---|---|---|
| src/pages/UserManagement.tsx:355 | The "Total Tasks" card sums `user.tasksCompleted \|\| 0`, a field the "Tasks Completed" column (line 430) never shows. | One user with `total_tasks` 5 and no `tasksCompleted`: the column shows 5 and the card shows 0. | The card is the sum of the "Tasks Completed" column, `total_tasks \|\| 0` per user. | medium, not executed | UserManagement.TotalTasksMissesTheShownCounts | UserManagement.TotalTasksIsTheColumnSum |

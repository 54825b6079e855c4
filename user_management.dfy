/**
 * The user management page (src/pages/UserManagement.tsx): avatar initials, the search over
 * users, the role badge, the delete guards, the add-user update and the statistics cards.
 */
module UserManagement {
  import opened Wrappers
  import Text
  import Seqs
  import Fetch

  /** A user record as the server returns it; any field may be missing. */
  datatype User = User(
    id: int,
    fullName: Option<string>,
    userName: Option<string>,
    email: Option<string>,
    role: Option<string>,
    totalTasks: Option<int>,
    tasksCompleted: Option<int>)

  // ---------------------------------------------------------------- initials

  /** `.map(word => word[0]).join("")`: the first character of each word; an empty word adds nothing. */
  function FirstChars(words: seq<string>): string
  {
    if words == [] then ""
    else (if words[0] == [] then "" else [words[0][0]]) + FirstChars(words[1..])
  }

  /** `getInitials(name)`: first characters of the space-separated words, uppercased, at most two. */
  function Initials(name: string): string
  {
    var all := Text.ToUpper(FirstChars(Text.Split(name, ' ')));
    all[..if |all| < 2 then |all| else 2]
  }

  /**
   * The characters of `s` that begin a word: not a space, and first in the text or right after
   * a space. `atStart` says whether the text is preceded by a space (or nothing).
   */
  function WordStarts(s: string, atStart: bool): string
  {
    if s == [] then ""
    else if s[0] == ' ' then WordStarts(s[1..], true)
    else (if atStart then [s[0]] else "") + WordStarts(s[1..], false)
  }

  lemma {:induction false} FirstCharsOfSplit(s: string)
    ensures FirstChars(Text.Split(s, ' ')) == WordStarts(s, true)
    decreases |s|, 1
  {
    if s != [] {
      var rest := Text.Split(s[1..], ' ');
      if s[0] == ' ' {
        assert Text.Split(s, ' ') == [""] + rest;
        assert ([""] + rest)[1..] == rest;
        FirstCharsOfSplit(s[1..]);
      } else {
        var parts := Text.Split(s, ' ');
        assert parts == [[s[0]] + rest[0]] + rest[1..];
        assert parts[1..] == rest[1..];
        FirstCharsOfSplitTail(s[1..]);
      }
    }
  }

  lemma {:induction false} FirstCharsOfSplitTail(t: string)
    ensures FirstChars(Text.Split(t, ' ')[1..]) == WordStarts(t, false)
    decreases |t|, 0
  {
    if t != [] {
      var rest := Text.Split(t[1..], ' ');
      if t[0] == ' ' {
        assert Text.Split(t, ' ') == [""] + rest;
        assert ([""] + rest)[1..] == rest;
        FirstCharsOfSplit(t[1..]);
      } else {
        assert Text.Split(t, ' ')[1..] == rest[1..];
        FirstCharsOfSplitTail(t[1..]);
      }
    }
  }

  lemma {:induction false} WordStartsAreNotSpaces(s: string, atStart: bool)
    ensures ' ' !in WordStarts(s, atStart)
    ensures |WordStarts(s, atStart)| <= |s|
  {
    if s != [] {
      WordStartsAreNotSpaces(s[1..], s[0] == ' ');
    }
  }

  /**
   * The initials are the uppercased first characters of the words of the name, the first two
   * of them; empty words (from repeated spaces) contribute nothing.
   */
  lemma InitialsAreWordStarts(name: string)
    ensures var starts := Text.ToUpper(WordStarts(name, true));
      Initials(name) == starts[..if |starts| < 2 then |starts| else 2]
    ensures |Initials(name)| <= 2
    ensures ' ' !in Initials(name)
  {
    FirstCharsOfSplit(name);
    WordStartsAreNotSpaces(name, true);
  }

  /** `user.full_name || user.user_name`: the name the initials are taken from. */
  function AvatarName(u: User): Option<string>
  {
    if u.fullName.Some? && u.fullName.value != "" then u.fullName else u.userName
  }

  // ---------------------------------------------------------------- search

  /** `field?.toLowerCase().includes(term.toLowerCase())`: a missing field never matches. */
  predicate FieldMatches(field: Option<string>, term: string)
  {
    field.Some? && Text.IncludesIgnoringCase(field.value, term)
  }

  predicate UserMatches(term: string, u: User)
  {
    FieldMatches(u.fullName, term) || FieldMatches(u.userName, term)
    || FieldMatches(u.email, term) || FieldMatches(u.role, term)
  }

  /** `filteredUsers`. */
  function FilteredUsers(users: seq<User>, term: string): seq<User>
  {
    Seqs.Filter(users, u => UserMatches(term, u))
  }

  /**
   * The search keeps users in their order, and keeps a user exactly when one of full name,
   * user name, email or role is present and contains the term, ignoring case.
   */
  lemma FilteredUsersAreTheMatchingOnes(users: seq<User>, term: string, u: User)
    ensures Seqs.IsSubsequence(FilteredUsers(users, term), users)
    ensures u in FilteredUsers(users, term) <==> u in users && UserMatches(term, u)
  {
    Seqs.FilterIsSubsequence(users, v => UserMatches(term, v));
    Seqs.FilterMembership(users, v => UserMatches(term, v), u);
  }

  /** There is no empty-search shortcut: with an empty term a user is kept iff one of the four fields is present. */
  lemma EmptySearchKeepsUsersWithAField(u: User)
    ensures UserMatches("", u) <==> u.fullName.Some? || u.userName.Some? || u.email.Some? || u.role.Some?
  {
    if u.fullName.Some? { Text.IncludesEmpty(u.fullName.value); }
    if u.userName.Some? { Text.IncludesEmpty(u.userName.value); }
    if u.email.Some? { Text.IncludesEmpty(u.email.value); }
    if u.role.Some? { Text.IncludesEmpty(u.role.value); }
  }

  // ---------------------------------------------------------------- role badge

  datatype BadgeVariant = AdminVariant | UserVariant

  datatype RoleIcon = Crown | Shield

  datatype RoleBadge = RoleBadge(variant: BadgeVariant, icon: RoleIcon, caption: string)

  /** `role.charAt(0).toUpperCase() + role.slice(1)`. */
  function Capitalize(role: string): string
  {
    if role == [] then "" else [Text.UpperChar(role[0])] + role[1..]
  }

  /** `getRoleBadge(role)`: the admin style for "admin", the user style for every other role. */
  function GetRoleBadge(role: string): RoleBadge
  {
    RoleBadge(if role == "admin" then AdminVariant else UserVariant, if role == "admin" then Crown else Shield, Capitalize(role))
  }

  /**
   * Only "admin" gets the admin style and the crown; any other role, known or not, falls back to
   * the user style and the shield. The caption is the role with its first letter uppercased.
   */
  lemma RoleBadgeCases(role: string)
    ensures GetRoleBadge(role).variant == AdminVariant <==> role == "admin"
    ensures GetRoleBadge(role).icon == Crown <==> role == "admin"
    ensures |GetRoleBadge(role).caption| == |role|
    ensures role != [] ==> GetRoleBadge(role).caption[0] == Text.UpperChar(role[0]) && GetRoleBadge(role).caption[1..] == role[1..]
  {
  }

  /**
   * The role cell of a row, `getRoleBadge(user.role)`. A user with no role has no badge: the
   * source's `role.charAt(0)` throws while the row renders.
   */
  function RowRoleBadge(u: User): Option<RoleBadge>
  {
    if u.role.Some? then Some(GetRoleBadge(u.role.value)) else None
  }

  /**
   * Every user with a role gets a badge, the admin style exactly for role "admin", captioned
   * with the role; a user without a role gets none.
   */
  lemma RowRoleBadgeCases(u: User)
    ensures RowRoleBadge(u).None? <==> u.role.None?
    ensures RowRoleBadge(u).Some? && RowRoleBadge(u).value.variant == AdminVariant <==> u.role == Some("admin")
    ensures RowRoleBadge(u).Some? ==> |RowRoleBadge(u).value.caption| == |u.role.value|
  {
    if u.role.Some? {
      RoleBadgeCases(u.role.value);
    }
  }

  // ---------------------------------------------------------------- delete

  datatype DeleteDecision = Cancelled | RefusedProtected | SendRequest

  /** The user that can never be deleted. */
  const ProtectedUserId := 1

  /** `handleDeleteUser(id)` up to the request: the confirmation first, then the protected id. */
  function DecideDelete(confirmed: bool, id: int): DeleteDecision
  {
    if !confirmed then Cancelled
    else if id == ProtectedUserId then RefusedProtected
    else SendRequest
  }

  /**
   * A request is sent exactly when the confirmation was accepted and the id is not 1; a
   * declined confirmation ends the handler before the id is looked at.
   */
  lemma DeleteGuards(confirmed: bool, id: int)
    ensures DecideDelete(confirmed, id) == SendRequest <==> confirmed && id != ProtectedUserId
    ensures !confirmed ==> DecideDelete(confirmed, id) == Cancelled
    ensures id == ProtectedUserId ==> DecideDelete(confirmed, id) != SendRequest
  {
  }

  // ---------------------------------------------------------------- statistics

  /** The "Tasks Completed" cell of a row: `user.total_tasks || 0`. */
  function TasksCell(u: User): int
  {
    u.totalTasks.GetOr(0)
  }

  function Sum(values: seq<int>): int
  {
    if values == [] then 0 else Sum(values[..|values| - 1]) + values[|values| - 1]
  }

  /** The "Total Tasks" card as written: the sum of `tasksCompleted || 0` over all users. */
  function TotalTasksAsWritten(users: seq<User>): int
  {
    if users == [] then 0 else TotalTasksAsWritten(users[..|users| - 1]) + users[|users| - 1].tasksCompleted.GetOr(0)
  }

  /** A user record carrying only a task count in the field the table shows. */
  lemma TotalTasksMissesTheShownCounts()
    ensures var users := [User(2, Some("An"), Some("an"), None, Some("user"), Some(5), None)];
      TotalTasksAsWritten(users) == 0 && Sum(seq(|users|, i requires 0 <= i < |users| => TasksCell(users[i]))) == 5
  {
    var users := [User(2, Some("An"), Some("an"), None, Some("user"), Some(5), None)];
    var cells := seq(|users|, i requires 0 <= i < |users| => TasksCell(users[i]));
    assert cells == [5];
    assert cells[..0] == [];
    assert users[..0] == [];
  }

  /** The "Total Tasks" card, counting the field the table shows: the sum over all users of `total_tasks || 0`. */
  function TotalTasks(users: seq<User>): int
  {
    if users == [] then 0 else TotalTasks(users[..|users| - 1]) + TasksCell(users[|users| - 1])
  }

  /** The card is the sum of the "Tasks Completed" column over every user (not only the ones the search shows). */
  lemma {:induction false} TotalTasksIsTheColumnSum(users: seq<User>)
    ensures TotalTasks(users) == Sum(seq(|users|, i requires 0 <= i < |users| => TasksCell(users[i])))
  {
    if users != [] {
      var front := users[..|users| - 1];
      TotalTasksIsTheColumnSum(front);
      var cells := seq(|users|, i requires 0 <= i < |users| => TasksCell(users[i]));
      assert cells[..|cells| - 1] == seq(|front|, i requires 0 <= i < |front| => TasksCell(front[i]));
    }
  }

  // ---------------------------------------------------------------- the page

  datatype NewUserForm = NewUserForm(fullName: string, userName: string, email: string, role: string)

  /** The form's initial and reset value. */
  const EmptyForm := NewUserForm("", "", "", "user")

  class UserManagementPage {
    var users: seq<User>
    var loading: bool
    var searchTerm: string
    var isAddUserOpen: bool
    var newUser: NewUserForm

    constructor()
      ensures users == [] && loading && searchTerm == "" && !isAddUserOpen && newUser == EmptyForm
    {
      users := [];
      loading := true;
      searchTerm := "";
      isAddUserOpen := false;
      newUser := EmptyForm;
    }

    /** `fetchUsers` up to the request. */
    method FetchUsersStart()
      modifies this
      ensures loading
      ensures users == old(users) && searchTerm == old(searchTerm)
      ensures isAddUserOpen == old(isAddUserOpen) && newUser == old(newUser)
    {
      loading := true;
    }

    /**
     * `fetchUsers` once the request has settled: an ok response replaces the list, a response
     * that is not ok or an error keeps it; the flag is lowered on every path.
     */
    method FetchUsersSettle(outcome: Fetch.Outcome<seq<User>>)
      modifies this
      ensures !loading
      ensures users == Fetch.Apply(old(users), outcome)
      ensures searchTerm == old(searchTerm)
      ensures isAddUserOpen == old(isAddUserOpen) && newUser == old(newUser)
    {
      users := Fetch.Apply(users, outcome);
      loading := false;
    }

    /**
     * Typing in the search box: the term changes and nothing else. The table then shows the
     * users with a present field that contains the term, in their order.
     */
    method SetSearchTerm(term: string)
      modifies this
      ensures searchTerm == term
      ensures users == old(users) && loading == old(loading)
      ensures isAddUserOpen == old(isAddUserOpen) && newUser == old(newUser)
      ensures Seqs.IsSubsequence(Shown(), users)
      ensures forall u :: u in Shown() <==> u in users && UserMatches(term, u)
    {
      searchTerm := term;
      forall u
        ensures u in Shown() <==> u in users && UserMatches(term, u)
      {
        FilteredUsersAreTheMatchingOnes(users, term, u);
      }
      FilteredUsersAreTheMatchingOnes(users, term, User(0, None, None, None, None, None, None));
    }

    /** The dialog's open state follows its trigger, its own close and the Cancel button. */
    method SetAddUserOpen(open: bool)
      modifies this
      ensures isAddUserOpen == open
      ensures users == old(users) && loading == old(loading) && searchTerm == old(searchTerm)
      ensures newUser == old(newUser)
    {
      isAddUserOpen := open;
    }

    method EditForm(form: NewUserForm)
      modifies this
      ensures newUser == form
      ensures users == old(users) && loading == old(loading) && searchTerm == old(searchTerm)
      ensures isAddUserOpen == old(isAddUserOpen)
    {
      newUser := form;
    }

    /**
     * `handleAddUser` once the request has settled. `added` is the returned user for an ok
     * response, `None` for a response that is not ok or an error (nothing changes then).
     * On success the user is appended, the dialog closes, the form is reset, and the list
     * is fetched again (its start raises `loading`).
     */
    method AddUserSettle(added: Option<User>)
      modifies this
      ensures added.Some? ==> users == old(users) + [added.value] && !isAddUserOpen && newUser == EmptyForm && loading
      ensures added.None? ==> users == old(users) && isAddUserOpen == old(isAddUserOpen) && newUser == old(newUser) && loading == old(loading)
      ensures searchTerm == old(searchTerm)
    {
      if added.Some? {
        users := users + [added.value];
        isAddUserOpen := false;
        newUser := EmptyForm;
        FetchUsersStart();
      }
    }

    /** The list the table shows. */
    function Shown(): seq<User>
      reads this
    {
      FilteredUsers(users, searchTerm)
    }
  }
}

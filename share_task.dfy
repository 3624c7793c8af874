/** The share dialog (src/ShareTask.js): the users to pick from, the ids
    picked so far, the search box that narrows the list, and the share call. */
module ShareTask {
  import opened Wrappers
  import opened Api
  import opened Seqs
  import Text

  datatype User = User(id: string, name: string, email: string)

  /** The users the dialog loads on opening; there is no user service behind it. */
  const MockUsers: seq<User> := [
    User("1", "John Doe", "john@example.com"),
    User("2", "Jane Smith", "jane@example.com"),
    User("3", "Bob Johnson", "bob@example.com"),
    User("4", "Alice Williams", "alice@example.com")
  ]

  /** `selectedUsers.filter(id => id !== userId)` */
  function Without(sel: seq<string>, id: string): (r: seq<string>)
    ensures forall x :: x in r <==> x in sel && x != id
    ensures Subsequence(r, sel)
  {
    var p := (x: string) => x != id;
    forall x ensures x in Filter(sel, p) <==> x in sel && x != id {
      FilterMembership(sel, p, x);
    }
    FilterIsSubsequence(sel, p);
    Filter(sel, p)
  }

  /** `handleUserSelect`'s new selection: a selected id is removed wherever
      it occurs, an unselected one is appended at the end. */
  function Toggle(sel: seq<string>, id: string): (r: seq<string>)
    ensures id in r <==> id !in sel
    ensures forall x :: x != id ==> (x in r <==> x in sel)
    ensures id !in sel ==> r == sel + [id]
  {
    if id in sel then Without(sel, id) else sel + [id]
  }

  /** The selection never lists an id twice. */
  lemma ToggleNoDuplicates(sel: seq<string>, id: string)
    requires NoDuplicates(sel)
    ensures NoDuplicates(Toggle(sel, id))
  {
    if id in sel {
      SubsequenceNoDuplicates(Without(sel, id), sel);
    } else {
      var r := sel + [id];
      forall i, j | 0 <= i < j < |r| ensures r[i] != r[j] {
        if j == |sel| {
          assert r[i] in sel;
        }
      }
    }
  }

  /** Selecting and deselecting the same user gives back the same set of ids;
      an id that was not selected leaves the very same list, while one that
      was selected comes back at the end. */
  lemma ToggleTwice(sel: seq<string>, id: string)
    ensures forall x :: x in Toggle(Toggle(sel, id), id) <==> x in sel
    ensures id !in sel ==> Toggle(Toggle(sel, id), id) == sel
    ensures id in sel ==> Toggle(Toggle(sel, id), id) == Without(sel, id) + [id]
  {
    if id !in sel {
      var p := (x: string) => x != id;
      FilterAppend(sel, [id], p);
      FilterAll(sel, p);
      assert Filter([id], p) == [];
    }
  }

  /** The search: the term, lower-cased, occurs in the lower-cased name or email. */
  predicate Matches(u: User, term: string) {
    Text.Includes(Text.ToLower(u.name), Text.ToLower(term))
    || Text.Includes(Text.ToLower(u.email), Text.ToLower(term))
  }

  /** `filteredUsers`: the users the search matches, in their order; an
      empty search keeps everyone. */
  function FilteredUsers(users: seq<User>, term: string): (r: seq<User>)
    ensures forall u :: u in r <==> u in users && Matches(u, term)
    ensures Subsequence(r, users)
    ensures term == "" ==> r == users
  {
    var p := (u: User) => Matches(u, term);
    forall u ensures u in Filter(users, p) <==> u in users && Matches(u, term) {
      FilterMembership(users, p, u);
    }
    FilterIsSubsequence(users, p);
    if term == "" then
      forall u ensures Matches(u, term) {
        Text.IncludesEmpty(Text.ToLower(u.name));
      }
      FilterAll(users, p);
      Filter(users, p)
    else
      Filter(users, p)
  }

  /** Upper or lower case in the search box makes no difference. */
  lemma SearchIgnoresCase(users: seq<User>, term: string)
    ensures FilteredUsers(users, Text.ToLower(term)) == FilteredUsers(users, term)
  {
    Text.ToLowerIdempotent(term);
    FilterAgree(users, (u: User) => Matches(u, Text.ToLower(term)), (u: User) => Matches(u, term));
  }

  /** The share button. */
  datatype Button = Button(disabled: bool, text: string)

  const SharePrefix := "Share with "
  const ShareSuffix := " user(s)"

  /** The share button: disabled while sharing or with nothing selected;
      its text counts the selection unless a share is in progress. */
  function ShareButton(loading: bool, selected: seq<string>): (b: Button)
    ensures b.disabled <==> loading || |selected| == 0
    ensures loading ==> b.text == "Sharing..."
    ensures !loading ==> |b.text| > |SharePrefix| + |ShareSuffix|
    ensures !loading ==>
      var digits := b.text[|SharePrefix|..|b.text| - |ShareSuffix|];
      && b.text[..|SharePrefix|] == SharePrefix
      && b.text[|b.text| - |ShareSuffix|..] == ShareSuffix
      && Text.IsDigits(digits) && Text.DecimalValue(digits) == |selected|
  {
    if loading then Button(true, "Sharing...")
    else
      var count := Text.Decimal(|selected|);
      Text.DecimalRoundTrip(|selected|);
      var text := SharePrefix + count + ShareSuffix;
      assert text[|SharePrefix|..|text| - |ShareSuffix|] == count;
      Button(|selected| == 0, text)
  }

  /** What `handleShare` makes happen, in order. */
  datatype ShareEvent =
    | Alert(message: string)
    | ShareCall(taskId: string, userIds: seq<string>)
    | OnSuccess
    | OnClose

  /** The dialog's state. */
  class ShareTaskModal {
    const taskId: string
    /** Whether the parent passed an `onSuccess` callback: a task list card
        does, a dashboard card renders its task item without `onUpdate`, so
        calling it throws inside the handler's `try`. */
    const hasOnSuccess: bool
    var users: seq<User>
    var selectedUsers: seq<string>
    var loading: bool
    var searchTerm: string

    constructor (taskId: string, hasOnSuccess: bool)
      ensures this.taskId == taskId && this.hasOnSuccess == hasOnSuccess
      ensures users == [] && selectedUsers == [] && !loading && searchTerm == ""
    {
      this.taskId := taskId;
      this.hasOnSuccess := hasOnSuccess;
      users := [];
      selectedUsers := [];
      loading := false;
      searchTerm := "";
    }

    /** `fetchUsers`, run once when the dialog opens. */
    method FetchUsers()
      modifies this`users
      ensures users == MockUsers
    {
      users := MockUsers;
    }

    /** `handleUserSelect` */
    method HandleUserSelect(id: string)
      modifies this`selectedUsers
      ensures selectedUsers == Toggle(old(selectedUsers), id)
    {
      selectedUsers := Toggle(selectedUsers, id);
    }

    /** The search box. */
    method SetSearchTerm(term: string)
      modifies this`searchTerm
      ensures searchTerm == term
    {
      searchTerm := term;
    }

    /** `handleShare`: with nothing selected, an alert and no call. Otherwise
        the call with the task and the selection; on success the success
        callback and then the close callback, on failure an alert. A missing
        success callback throws after the call succeeded, so the handler
        alerts as on failure and never closes. The selection is kept either
        way and loading ends false. */
    method HandleShare(response: Outcome<()>) returns (events: seq<ShareEvent>)
      modifies this`loading
      ensures |old(selectedUsers)| == 0 ==>
        events == [Alert("Please select at least one user to share with")] && loading == old(loading)
      ensures |old(selectedUsers)| > 0 && response.Success? && hasOnSuccess ==>
        events == [ShareCall(taskId, selectedUsers), OnSuccess, OnClose] && !loading
      ensures |old(selectedUsers)| > 0 && (response.Failure? || !hasOnSuccess) ==>
        events == [ShareCall(taskId, selectedUsers), Alert("Failed to share task")] && !loading
    {
      if |selectedUsers| == 0 {
        return [Alert("Please select at least one user to share with")];
      }
      loading := true;
      events := [ShareCall(taskId, selectedUsers)];
      if response.Success? && hasOnSuccess {
        events := events + [OnSuccess, OnClose];
      } else {
        events := events + [Alert("Failed to share task")];
      }
      loading := false;
    }
  }

  /** Picking a user twice leaves nothing to share: the button is disabled
      and pressing it only alerts. */
  method PickTwiceThenShare(taskId: string, id: string, response: Outcome<()>)
    returns (button: Button, events: seq<ShareEvent>)
    ensures button.disabled
    ensures events == [Alert("Please select at least one user to share with")]
  {
    var modal := new ShareTaskModal(taskId, true);
    modal.FetchUsers();
    modal.HandleUserSelect(id);
    modal.HandleUserSelect(id);
    button := ShareButton(modal.loading, modal.selectedUsers);
    events := modal.HandleShare(response);
  }

  /** Shared from a dashboard card, a share the server accepted still ends
      in the failure alert, and the dialog is not closed. */
  method ShareFromDashboard(taskId: string, id: string) returns (events: seq<ShareEvent>)
    ensures events == [ShareCall(taskId, [id]), Alert("Failed to share task")]
    ensures OnClose !in events
  {
    var modal := new ShareTaskModal(taskId, false);
    modal.HandleUserSelect(id);
    assert modal.selectedUsers == [id];
    events := modal.HandleShare(Success(()));
  }
}

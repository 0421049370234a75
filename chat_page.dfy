/** The chat page's user pickers: the fetched user list without the current user,
    the new-chat search, the group-member toggle and the group-creation guard. */
module ChatPage {
  import opened Seqs
  import opened JsText

  type UserId = string

  datatype UserSummary = UserSummary(id: UserId, username: string, email: string)

  /** `data.filter(u => u._id !== user._id)`. */
  function ExcludeSelf(users: seq<UserSummary>, me: UserId): (r: seq<UserSummary>)
    ensures forall i | 0 <= i < |r| :: r[i].id != me && r[i] in users
    ensures forall i | 0 <= i < |users| && users[i].id != me :: users[i] in r
    ensures IsSubsequence(r, users)
  {
    FilterIsSubsequence(users, (u: UserSummary) => u.id != me);
    Filter(users, (u: UserSummary) => u.id != me)
  }

  /** The search match: the lower-cased username or email contains the lower-cased
      term; the term itself is not trimmed. */
  predicate Matches(u: UserSummary, term: string) {
    Contains(Lower(u.username), Lower(term)) || Contains(Lower(u.email), Lower(term))
  }

  /** `handleSearch`: a blank term shows every user, otherwise those that match. */
  function Search(all: seq<UserSummary>, term: string): (r: seq<UserSummary>)
    ensures IsBlank(term) ==> r == all
    ensures !IsBlank(term) ==> forall i | 0 <= i < |r| :: r[i] in all && Matches(r[i], term)
    ensures !IsBlank(term) ==> forall i | 0 <= i < |all| && Matches(all[i], term) :: all[i] in r
  {
    TrimEmptyIffBlank(term);
    if Trim(term) == "" then all else Filter(all, (u: UserSummary) => Matches(u, term))
  }

  /** Search results keep the order of the full list. */
  lemma SearchIsSubsequence(all: seq<UserSummary>, term: string)
    ensures IsSubsequence(Search(all, term), all)
  {
    TrimEmptyIffBlank(term);
    if IsBlank(term) {
      SubsequenceRefl(all);
    } else {
      FilterIsSubsequence(all, (u: UserSummary) => Matches(u, term));
    }
  }

  predicate IsSelected(selected: seq<UserSummary>, id: UserId) {
    exists i | 0 <= i < |selected| :: selected[i].id == id
  }

  /** `handleUserSelect`: a user already selected (by id) is removed, every entry with
      that id; any other user is appended. */
  function ToggleSelected(selected: seq<UserSummary>, u: UserSummary): (r: seq<UserSummary>)
    ensures IsSelected(selected, u.id) ==> !IsSelected(r, u.id)
    ensures IsSelected(selected, u.id) ==> forall i | 0 <= i < |selected| && selected[i].id != u.id :: selected[i] in r
    ensures IsSelected(selected, u.id) ==> IsSubsequence(r, selected) && forall i | 0 <= i < |r| :: r[i].id != u.id
    ensures !IsSelected(selected, u.id) ==> r == selected + [u]
  {
    if IsSelected(selected, u.id) then
      FilterIsSubsequence(selected, (s: UserSummary) => s.id != u.id);
      Filter(selected, (s: UserSummary) => s.id != u.id)
    else selected + [u]
  }

  /** Selecting a user twice gives back the original list. */
  lemma ToggleTwice(selected: seq<UserSummary>, u: UserSummary)
    requires !IsSelected(selected, u.id)
    ensures ToggleSelected(ToggleSelected(selected, u), u) == selected
  {
    var once := selected + [u];
    assert once[|selected|].id == u.id;
    FilterAppend(selected, [u], (s: UserSummary) => s.id != u.id);
    FilterAll(selected, (s: UserSummary) => s.id != u.id);
    assert Filter([u], (s: UserSummary) => s.id != u.id) == [];
    assert Filter(once, (s: UserSummary) => s.id != u.id) == selected;
  }

  /** `handleCreateGroup`'s guard. */
  function CanCreateGroup(groupName: string, selected: seq<UserSummary>): (r: bool)
    ensures r ==> |selected| >= 2 && groupName != ""
  {
    Trim(groupName) != "" && |selected| >= 2
  }

  /** The guard holds exactly for a name that is not all whitespace and two or more
      selected users. */
  lemma CanCreateGroupIff(groupName: string, selected: seq<UserSummary>)
    ensures CanCreateGroup(groupName, selected) <==> !IsBlank(groupName) && |selected| >= 2
  {
    TrimEmptyIffBlank(groupName);
  }

  /** `selectedUsers.map(user => user._id)`: the ids sent to create the group. */
  function SelectedIds(selected: seq<UserSummary>): (r: seq<UserId>)
    ensures |r| == |selected| && forall i | 0 <= i < |r| :: r[i] == selected[i].id
  {
    seq(|selected|, i requires 0 <= i < |selected| => selected[i].id)
  }
}

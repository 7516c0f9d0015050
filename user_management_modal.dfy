/**
 * The admin's user list: the search and role filter over the loaded
 * users, the list updates after a privilege or status toggle, and the
 * summary counts under the table.
 */
module UserManagementModal {
  import opened Strings
  import Sequences

  /** A user row as the list holds it. */
  datatype UserRow = UserRow(id: int, username: string, email: string, isAdmin: bool, isActive: bool)

  /** Case-insensitive substring search on the username or the email. */
  predicate MatchesSearch(u: UserRow, term: string)
  {
    Contains(Lower(u.username), Lower(term)) || Contains(Lower(u.email), Lower(term))
  }

  /** The role filter: `admin`, `regular`, or anything else for every user. */
  predicate MatchesRole(u: UserRow, role: string)
  {
    if role == "admin" then u.isAdmin
    else if role == "regular" then !u.isAdmin
    else true
  }

  predicate Shown(u: UserRow, term: string, role: string)
  {
    MatchesSearch(u, term) && MatchesRole(u, role)
  }

  /** `filteredUsers`: the users passing both filters, in list order. */
  function Filtered(users: seq<UserRow>, term: string, role: string): (r: seq<UserRow>)
    ensures Sequences.IsSubsequence(r, users)
    ensures forall k :: 0 <= k < |r| ==> Shown(r[k], term, role)
    ensures forall k :: 0 <= k < |users| && Shown(users[k], term, role) ==> users[k] in r
  {
    Sequences.Filter(users, (u: UserRow) => Shown(u, term, role))
  }

  /** A user is listed exactly when the user is loaded and passes the search and the role filter. */
  lemma FilteredIff(users: seq<UserRow>, term: string, role: string, u: UserRow)
    ensures u in Filtered(users, term, role) <==> u in users && MatchesSearch(u, term) && MatchesRole(u, role)
  {
    var r := Filtered(users, term, role);
    if u in r {
      var k :| 0 <= k < |r| && r[k] == u;
      Sequences.SubsequenceMembers(r, users);
    }
  }

  /** An empty search with the `all` filter lists every user. */
  lemma EmptySearchListsAll(users: seq<UserRow>)
    ensures Filtered(users, "", "all") == users
  {
    assert Lower("") == "";
    forall k | 0 <= k < |users| ensures Shown(users[k], "", "all") {
      ContainsEmpty(Lower(users[k].username));
    }
    Sequences.FilterAll(users, (u: UserRow) => Shown(u, "", "all"));
  }

  /** The `admin` and `regular` filters split the searched users between them. */
  lemma RolesPartition(u: UserRow, term: string)
    ensures Shown(u, term, "admin") != Shown(u, term, "regular") || !MatchesSearch(u, term)
    ensures Shown(u, term, "all") <==> Shown(u, term, "admin") || Shown(u, term, "regular")
  {
  }

  /** `handleToggleAdmin` after a successful request: that user's `is_admin` becomes the negation of the status passed. */
  function ToggleAdmin(users: seq<UserRow>, userId: int, currentStatus: bool): (r: seq<UserRow>)
    ensures |r| == |users|
    ensures forall k :: 0 <= k < |users| ==>
      r[k] == (if users[k].id == userId then users[k].(isAdmin := !currentStatus) else users[k])
  {
    seq(|users|, k requires 0 <= k < |users| =>
      if users[k].id == userId then users[k].(isAdmin := !currentStatus) else users[k])
  }

  /** `handleToggleActive` after a successful request: that user's `is_active` becomes the negation of the status passed. */
  function ToggleActive(users: seq<UserRow>, userId: int, currentStatus: bool): (r: seq<UserRow>)
    ensures |r| == |users|
    ensures forall k :: 0 <= k < |users| ==>
      r[k] == (if users[k].id == userId then users[k].(isActive := !currentStatus) else users[k])
  {
    seq(|users|, k requires 0 <= k < |users| =>
      if users[k].id == userId then users[k].(isActive := !currentStatus) else users[k])
  }

  /** A toggle with the row's own status flips it, and toggling back restores the list. */
  lemma ToggleAdminTwice(users: seq<UserRow>, userId: int)
    requires forall k :: 0 <= k < |users| && users[k].id == userId ==> users[k].isAdmin
    ensures forall k :: 0 <= k < |users| && users[k].id == userId ==> !ToggleAdmin(users, userId, true)[k].isAdmin
    ensures ToggleAdmin(ToggleAdmin(users, userId, true), userId, false) == users
  {
    var once := ToggleAdmin(users, userId, true);
    var twice := ToggleAdmin(once, userId, false);
    assert forall k :: 0 <= k < |users| ==> twice[k] == users[k];
  }

  /** The footer: total, admins and active users of the filtered list. */
  datatype Summary = Summary(total: nat, admins: nat, active: nat)

  function Counts(shown: seq<UserRow>): (s: Summary)
    ensures s.admins <= s.total && s.active <= s.total
    ensures s.total == |shown|
  {
    var admins := Sequences.Filter(shown, (u: UserRow) => u.isAdmin);
    var active := Sequences.Filter(shown, (u: UserRow) => u.isActive);
    Sequences.SubsequenceNotLonger(admins, shown);
    Sequences.SubsequenceNotLonger(active, shown);
    Summary(|shown|, |admins|, |active|)
  }

  /** Under the `admin` filter every listed user counts as an admin. */
  lemma AdminFilterCountsAll(users: seq<UserRow>, term: string)
    ensures Counts(Filtered(users, term, "admin")).admins == Counts(Filtered(users, term, "admin")).total
  {
    var shown := Filtered(users, term, "admin");
    Sequences.FilterAll(shown, (u: UserRow) => u.isAdmin);
  }
}

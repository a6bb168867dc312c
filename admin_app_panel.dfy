/** The member list of the separate admin application, admin/src/components/AdminPanel.tsx:
    its three tabs, the buttons offered on each row, and the list shown after a status
    change or a deletion. The requests and the reload are oracles, given as their
    outcomes. */
module AdminApp {
  import opened Lists
  import opened UserModel

  /** The payment states this app knows; they differ from the schema's. */
  datatype AdminStatus = PendingPayment | ConfirmedPayment | ExpiredPayment

  /** A member as this app receives it; only the fields its logic reads. */
  datatype AdminUser = AdminUser(id: string, name: string, endDate: string, paymentStatus: AdminStatus)

  datatype AdminTab = AllUsers | PendingUsers | ExpiredUsers

  /** The test `filteredUsers` applies on a tab. */
  predicate Shows(tab: AdminTab, u: AdminUser) {
    match tab
    case AllUsers => true
    case PendingUsers => u.paymentStatus == PendingPayment
    case ExpiredUsers => u.paymentStatus == ExpiredPayment
  }

  function ShownOn(tab: AdminTab): AdminUser -> bool {
    (u: AdminUser) => Shows(tab, u)
  }

  /** `filteredUsers`. */
  function FilteredUsers(users: seq<AdminUser>, tab: AdminTab): seq<AdminUser> {
    Filter(users, ShownOn(tab))
  }

  /** 'all' lists every member; 'pending' and 'expired' exactly those with that payment
      state, each as often as it is listed, in the order of the list. */
  lemma FilteredUsersExact(users: seq<AdminUser>, tab: AdminTab, u: AdminUser)
    ensures tab == AllUsers ==> FilteredUsers(users, tab) == users
    ensures multiset(FilteredUsers(users, tab))[u] == if Shows(tab, u) then multiset(users)[u] else 0
    ensures IsSubsequence(FilteredUsers(users, tab), users)
  {
    if tab == AllUsers {
      FilterKeepsAll(users, ShownOn(tab));
    }
    FilterMultiplicity(users, ShownOn(tab), u);
    FilterIsSubsequence(users, ShownOn(tab));
  }

  /** The two status tabs never share a member. */
  lemma StatusTabsDisjoint(users: seq<AdminUser>, u: AdminUser)
    ensures !(u in FilteredUsers(users, PendingUsers) && u in FilteredUsers(users, ExpiredUsers))
  {
    FilterMembership(users, ShownOn(PendingUsers), u);
    FilterMembership(users, ShownOn(ExpiredUsers), u);
  }

  datatype RowAction = SetStatus(target: AdminStatus) | DeleteUser

  /** The buttons of a row, left to right: confirm for a pending payment, expire for a
      confirmed one, and delete always. */
  function RowActions(u: AdminUser): seq<RowAction> {
    (if u.paymentStatus == PendingPayment then [SetStatus(ConfirmedPayment)] else [])
    + (if u.paymentStatus == ConfirmedPayment then [SetStatus(ExpiredPayment)] else [])
    + [DeleteUser]
  }

  /** The order of the payment states. */
  function Stage(s: AdminStatus): nat {
    match s
    case PendingPayment => 0
    case ConfirmedPayment => 1
    case ExpiredPayment => 2
  }

  /** A row offers a status change only one stage forward (pending to confirmed,
      confirmed to expired), none at all for an expired payment, and delete on every row,
      last. */
  lemma RowActionsMoveForward(u: AdminUser, t: AdminStatus)
    ensures SetStatus(t) in RowActions(u) <==>
      (u.paymentStatus == PendingPayment && t == ConfirmedPayment) || (u.paymentStatus == ConfirmedPayment && t == ExpiredPayment)
    ensures SetStatus(t) in RowActions(u) ==> Stage(t) == Stage(u.paymentStatus) + 1
    ensures u.paymentStatus == ExpiredPayment ==> RowActions(u) == [DeleteUser]
    ensures DeleteUser in RowActions(u) && RowActions(u)[|RowActions(u)| - 1] == DeleteUser
    ensures u.paymentStatus != ExpiredPayment ==> |RowActions(u)| == 2
  {
    var a := RowActions(u);
    if SetStatus(t) in a {
      var k :| 0 <= k < |a| && a[k] == SetStatus(t);
      assert k == 0;
    }
  }

  /** `fetchUsers`: the fetched list replaces the shown one; a failed fetch keeps it. */
  function FetchUsers(users: seq<AdminUser>, fetched: Option<seq<AdminUser>>): (r: seq<AdminUser>)
    ensures fetched.Some? ==> r == fetched.value
    ensures fetched.None? ==> r == users
  {
    if fetched.Some? then fetched.value else users
  }

  /** `handleStatusChange` and `handleDelete` after their request: an OK response
      reloads the list from the server; anything else leaves it as it was. */
  function AfterRequest(users: seq<AdminUser>, ok: bool, fetched: Option<seq<AdminUser>>): (r: seq<AdminUser>)
    ensures !ok ==> r == users
    ensures ok ==> r == FetchUsers(users, fetched)
  {
    if ok then FetchUsers(users, fetched) else users
  }

  /** `handleDelete`: nothing at all unless the deletion is confirmed in the dialog. */
  function AfterDelete(users: seq<AdminUser>, confirmed: bool, ok: bool, fetched: Option<seq<AdminUser>>): (r: seq<AdminUser>)
    ensures !confirmed ==> r == users
    ensures confirmed ==> r == AfterRequest(users, ok, fetched)
  {
    if confirmed then AfterRequest(users, ok, fetched) else users
  }

  /** The panel never edits its list on its own: after a status change or a deletion it
      shows either the list it had or exactly the list the server sent. So a deleted
      member disappears only if the server's list lacks it, and a status change shows only
      as the server reports it. */
  lemma ListComesFromServer(users: seq<AdminUser>, confirmed: bool, ok: bool, fetched: Option<seq<AdminUser>>)
    ensures AfterRequest(users, ok, fetched) == users ||
      (ok && fetched.Some? && AfterRequest(users, ok, fetched) == fetched.value)
    ensures AfterDelete(users, confirmed, ok, fetched) == users ||
      (confirmed && ok && fetched.Some? && AfterDelete(users, confirmed, ok, fetched) == fetched.value)
    ensures forall u :: u in AfterDelete(users, confirmed, ok, fetched) ==>
      u in users || (fetched.Some? && u in fetched.value)
  {
  }
}

/**
 * The admin accounts kept under 'adminUsers': adding one behind a username-uniqueness guard,
 * and deleting by id. The root account 'sara' is protected only by the listing, which shows
 * no delete button for it; deletion itself does not check.
 */
module AdminAccounts {
  import opened Wrappers
  import opened Records
  import opened Sequences
  import opened Storage

  const RootUsername: string := "sara"

  function UsernameOf(a: AdminAccount): string {
    a.username
  }

  function HasUsername(username: string): AdminAccount -> bool {
    (a: AdminAccount) => a.username == username
  }

  function AdminIdIsNot(id: string): AdminAccount -> bool {
    (a: AdminAccount) => a.id != id
  }

  /** `admins.find(admin => admin.username === username)` found something. */
  predicate UsernameTaken(admins: seq<AdminAccount>, username: string) {
    FirstIndex(admins, HasUsername(username)) >= 0
  }

  /** The account list after the add form: `None` when the username is taken (nothing written). */
  function AddAdmin(admins: seq<AdminAccount>, newAdmin: AdminAccount): (r: Option<seq<AdminAccount>>)
    ensures r.None? <==> exists k :: 0 <= k < |admins| && admins[k].username == newAdmin.username
    ensures r.Some? ==> |r.value| == |admins| + 1 && r.value[..|admins|] == admins
                        && r.value[|admins|] == newAdmin
  {
    if UsernameTaken(admins, newAdmin.username) then None else Some(admins + [newAdmin])
  }

  /** Adding keeps usernames unique. */
  lemma AddAdminKeepsUsernamesUnique(admins: seq<AdminAccount>, newAdmin: AdminAccount)
    requires Unique(admins, UsernameOf)
    ensures AddAdmin(admins, newAdmin).Some? ==> Unique(AddAdmin(admins, newAdmin).value, UsernameOf)
  {
    if AddAdmin(admins, newAdmin).Some? {
      AppendKeepsUnique(admins, newAdmin, UsernameOf);
    }
  }

  /** `admins.filter(admin => admin.id !== id)` */
  function DeleteAdmins(admins: seq<AdminAccount>, id: string): (r: seq<AdminAccount>)
    ensures |r| <= |admins|
    ensures forall k :: 0 <= k < |r| ==> r[k].id != id && r[k] in admins
    ensures forall k :: 0 <= k < |admins| && admins[k].id != id ==> admins[k] in r
  {
    Filter(admins, AdminIdIsNot(id))
  }

  /** Deleting is idempotent, and keeps usernames unique. */
  lemma DeleteAdminsProperties(admins: seq<AdminAccount>, id: string)
    ensures DeleteAdmins(DeleteAdmins(admins, id), id) == DeleteAdmins(admins, id)
    ensures Unique(admins, UsernameOf) ==> Unique(DeleteAdmins(admins, id), UsernameOf)
  {
    FilterIdempotent(admins, AdminIdIsNot(id));
    if Unique(admins, UsernameOf) {
      FilterKeepsUnique(admins, AdminIdIsNot(id), UsernameOf);
    }
  }

  /** The listing's guard: a delete button for every account except 'sara'. */
  predicate ShowsDeleteButton(a: AdminAccount) {
    a.username != RootUsername
  }

  /** Deletion itself removes the root account when given its id. */
  lemma DeleteDoesNotProtectRoot(admins: seq<AdminAccount>, k: nat)
    requires k < |admins| && admins[k].username == RootUsername
    ensures !ShowsDeleteButton(admins[k])
    ensures admins[k] !in DeleteAdmins(admins, admins[k].id)
  {
  }

  /**
   * When no account with the deleted id is a root account, which is what the listing's
   * guard achieves when ids are distinct, every root account survives the deletion.
   */
  lemma GuardedDeleteKeepsRoot(admins: seq<AdminAccount>, id: string)
    requires forall k :: 0 <= k < |admins| && admins[k].id == id ==> ShowsDeleteButton(admins[k])
    ensures forall k :: 0 <= k < |admins| && admins[k].username == RootUsername ==>
              admins[k] in DeleteAdmins(admins, id)
  {
  }

  // ---------------------------------------------------------------- store operations

  /** The store after the add form: the new account last, or nothing written if the name is taken. */
  function AfterAddAdmin(entries: map<string, Value>, newAdmin: AdminAccount): (r: map<string, Value>)
    requires WellTyped(entries)
    ensures WellTyped(r)
    ensures r - {AdminUsersKey} == entries - {AdminUsersKey}
    ensures r == entries <==> UsernameTaken(AdminsOf(entries), newAdmin.username)
    ensures r != entries ==> AdminsOf(r) == AdminsOf(entries) + [newAdmin]
  {
    var admins := AdminsOf(entries);
    if UsernameTaken(admins, newAdmin.username) then entries
    else
      var r := entries[AdminUsersKey := AdminList(admins + [newAdmin])];
      assert |AdminsOf(r)| != |admins|;
      r
  }

  /** The store after `deleteAdmin`: `confirmed` is the answer to the confirmation dialog. */
  function AfterDeleteAdmin(entries: map<string, Value>, id: string, confirmed: bool): (r: map<string, Value>)
    requires WellTyped(entries)
    ensures WellTyped(r)
    ensures r - {AdminUsersKey} == entries - {AdminUsersKey}
    ensures !confirmed ==> r == entries
    ensures confirmed ==> AdminsOf(r) == DeleteAdmins(AdminsOf(entries), id)
  {
    if !confirmed then entries
    else entries[AdminUsersKey := AdminList(DeleteAdmins(AdminsOf(entries), id))]
  }

  /** The add-admin form's submit handler: `id` and `now` are the generated id and the clock. */
  method AddAdminAccount(store: Store, id: string, username: string, password: string,
                         role: string, now: Timestamp) returns (added: bool)
    requires store.Valid()
    modifies store
    ensures store.Valid()
    ensures added <==> !UsernameTaken(AdminsOf(old(store.entries)), username)
    ensures store.entries
         == AfterAddAdmin(old(store.entries), AdminAccount(id, username, password, role, now))
  {
    var newAdmin := AdminAccount(id, username, password, role, now);
    var admins := AdminsOf(store.entries);
    var i := FindIndex(admins, HasUsername(newAdmin.username));
    if i >= 0 {
      added := false;
      return;
    }
    admins := admins + [newAdmin];
    store.Set(AdminUsersKey, AdminList(admins));
    added := true;
  }

  /** `deleteAdmin(adminId)`: `confirmed` is the answer to the confirmation dialog. */
  method DeleteAdmin(store: Store, adminId: string, confirmed: bool)
    requires store.Valid()
    modifies store
    ensures store.Valid()
    ensures store.entries == AfterDeleteAdmin(old(store.entries), adminId, confirmed)
  {
    if confirmed {
      var admins := AdminsOf(store.entries);
      var filteredAdmins := Filter(admins, AdminIdIsNot(adminId));
      store.Set(AdminUsersKey, AdminList(filteredAdmins));
    }
  }
}

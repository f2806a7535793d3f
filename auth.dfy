/**
 * The auth module: seeding the default accounts, customer login, registration and password
 * recovery, admin login, logout and the session lookups, all over the same store.
 * Id generation, the clock, `Utils.formatPhone` and the result of `Utils.validateForm` are
 * parameters.
 */
module Auth {
  import opened Wrappers
  import opened Records
  import opened Sequences
  import opened Storage
  import opened AdminAccounts

  const LoginFailedMessage: string := "Telefone ou senha incorretos"
  const DuplicateUserMessage: string := "Usuário já cadastrado com este telefone ou email"
  const PasswordPrefix: string := "Sua senha é: "
  const UserNotFoundMessage: string := "Usuário não encontrado"
  const AdminLoginFailedMessage: string := "Usuário ou senha incorretos"

  const DefaultUserPhone: string := "(00) 00000-0000"
  const DefaultUserPassword: string := "123456"
  const DefaultAdminPassword: string := "123"

  /** What a login or a registration returns: the account, a message, or the field errors. */
  datatype AuthResult<T> =
    | Success(value: T)
    | Failure(message: string)
    | InvalidFields(errors: map<string, string>)

  /** What password recovery returns. */
  datatype Reply = Reply(success: bool, message: string)

  // ---------------------------------------------------------------- seeding

  /** The customer account seeded into an empty user list. */
  function DefaultUser(id: string, createdAt: Timestamp): User {
    User(id, "Administrador", DefaultUserPhone, "admin@salgadosdasara.com",
         "Rua Ida Berlet, 1738 B", "1738", "B", "Quinze de Novembro", DefaultUserPassword,
         true, createdAt)
  }

  /** The root admin account seeded into an empty admin list. */
  function DefaultAdmin(id: string, createdAt: Timestamp): AdminAccount {
    AdminAccount(id, RootUsername, DefaultAdminPassword, "admin", createdAt)
  }

  /** The store after `init`: each list is seeded only when it is empty. */
  function AfterInit(entries: map<string, Value>, userId: string, userCreatedAt: Timestamp,
                     adminId: string, adminCreatedAt: Timestamp): (r: map<string, Value>)
    requires WellTyped(entries)
    ensures WellTyped(r)
    ensures r - {UsersKey, AdminUsersKey} == entries - {UsersKey, AdminUsersKey}
    ensures |UsersOf(entries)| == 0 ==> UsersOf(r) == [DefaultUser(userId, userCreatedAt)]
    ensures |UsersOf(entries)| > 0 ==> UsersOf(r) == UsersOf(entries)
    ensures |AdminsOf(entries)| == 0 ==> AdminsOf(r) == [DefaultAdmin(adminId, adminCreatedAt)]
    ensures |AdminsOf(entries)| > 0 ==> AdminsOf(r) == AdminsOf(entries)
  {
    var withUsers :=
      if |UsersOf(entries)| == 0 then entries[UsersKey := UserList([DefaultUser(userId, userCreatedAt)])]
      else entries;
    if |AdminsOf(withUsers)| == 0
    then withUsers[AdminUsersKey := AdminList([DefaultAdmin(adminId, adminCreatedAt)])]
    else withUsers
  }

  /** Seeding twice is seeding once, whatever fresh ids and times the second run draws. */
  lemma InitIdempotent(entries: map<string, Value>, u1: string, t1: Timestamp, a1: string, s1: Timestamp,
                       u2: string, t2: Timestamp, a2: string, s2: Timestamp)
    requires WellTyped(entries)
    ensures AfterInit(AfterInit(entries, u1, t1, a1, s1), u2, t2, a2, s2) == AfterInit(entries, u1, t1, a1, s1)
  {
  }

  /** `init`, with the generated ids and the clock readings passed in. */
  method Init(store: Store, userId: string, userCreatedAt: Timestamp,
              adminId: string, adminCreatedAt: Timestamp)
    requires store.Valid()
    modifies store
    ensures store.Valid()
    ensures store.entries == AfterInit(old(store.entries), userId, userCreatedAt, adminId, adminCreatedAt)
  {
    var users := UsersOf(store.entries);
    if |users| == 0 {
      store.Set(UsersKey, UserList([DefaultUser(userId, userCreatedAt)]));
    }
    var adminUsers := AdminsOf(store.entries);
    if |adminUsers| == 0 {
      store.Set(AdminUsersKey, AdminList([DefaultAdmin(adminId, adminCreatedAt)]));
    }
  }

  // ---------------------------------------------------------------- customer login

  function HasCredentials(phone: string, password: string): User -> bool {
    (u: User) => u.phone == phone && u.password == password
  }

  /** `login`'s answer: the first user with both the phone and the password, else the message. */
  function LoginOutcome(users: seq<User>, phone: string, password: string): (r: AuthResult<User>)
    ensures !r.InvalidFields?
    ensures r.Failure? <==> forall k :: 0 <= k < |users| ==> !(users[k].phone == phone && users[k].password == password)
    ensures r.Failure? ==> r.message == LoginFailedMessage
    ensures r.Success? ==> exists k :: 0 <= k < |users| && users[k] == r.value
                                && r.value.phone == phone && r.value.password == password
                                && forall j :: 0 <= j < k ==> !(users[j].phone == phone && users[j].password == password)
  {
    var found := Find(users, HasCredentials(phone, password));
    if found.Some? then Success(found.value) else Failure(LoginFailedMessage)
  }

  /** The store after `login`: the session is set to the matched user, or nothing is written. */
  function AfterLogin(entries: map<string, Value>, phone: string, password: string): (r: map<string, Value>)
    requires WellTyped(entries)
    ensures WellTyped(r)
    ensures r - {CurrentUserKey} == entries - {CurrentUserKey}
    ensures var out := LoginOutcome(UsersOf(entries), phone, password);
      (out.Success? ==> CurrentUserOf(r) == Some(out.value)) && (!out.Success? ==> r == entries)
  {
    var out := LoginOutcome(UsersOf(entries), phone, password);
    if out.Success? then entries[CurrentUserKey := UserRecord(out.value)] else entries
  }

  method Login(store: Store, phone: string, password: string) returns (result: AuthResult<User>)
    requires store.Valid()
    modifies store
    ensures store.Valid()
    ensures result == LoginOutcome(UsersOf(old(store.entries)), phone, password)
    ensures store.entries == AfterLogin(old(store.entries), phone, password)
  {
    var users := UsersOf(store.entries);
    var i := FindIndex(users, HasCredentials(phone, password));
    if i >= 0 {
      var user := users[i];
      store.Set(CurrentUserKey, UserRecord(user));
      result := Success(user);
    } else {
      result := Failure(LoginFailedMessage);
    }
  }

  // ---------------------------------------------------------------- registration

  /** The registration form's fields; `complement` is optional. */
  datatype RegistrationForm = RegistrationForm(
    name: string, phone: string, email: string, address: string, number: string,
    complement: Option<string>, city: string, password: string, confirmPassword: string)

  function ClashesWith(phone: string, email: string): User -> bool {
    (u: User) => u.phone == phone || u.email == email
  }

  /** The account built from a valid form: formatted phone, `''` for no complement, not an admin. */
  function NewUser(form: RegistrationForm, id: string, now: Timestamp,
                   formatPhone: string -> string): (u: User)
    ensures u.id == id && u.createdAt == now && !u.isAdmin
    ensures u.phone == formatPhone(form.phone)
    ensures u.complement == if form.complement.Some? then form.complement.value else ""
    ensures u.name == form.name && u.email == form.email && u.address == form.address
            && u.number == form.number && u.city == form.city && u.password == form.password
  {
    User(id, form.name, formatPhone(form.phone), form.email, form.address, form.number,
         form.complement.GetOr(""), form.city, form.password, false, now)
  }

  /**
   * `register`'s answer. The duplicate check compares the phone AS TYPED and the email with
   * the stored accounts and comes first; only then do the field errors (`errors`, what
   * `Utils.validateForm` found) count.
   */
  function RegisterOutcome(users: seq<User>, form: RegistrationForm, errors: map<string, string>,
                           id: string, now: Timestamp, formatPhone: string -> string): (r: AuthResult<User>)
    ensures r.Failure? <==> exists k :: 0 <= k < |users| && (users[k].phone == form.phone || users[k].email == form.email)
    ensures r.Failure? ==> r.message == DuplicateUserMessage
    ensures r.InvalidFields? <==> !r.Failure? && |errors| > 0
    ensures r.InvalidFields? ==> r.errors == errors
    ensures r.Success? ==>
      && r.value.id == id && r.value.name == form.name
      && r.value.phone == formatPhone(form.phone) && r.value.email == form.email
      && r.value.address == form.address && r.value.number == form.number
      && r.value.complement == (if form.complement.Some? then form.complement.value else "")
      && r.value.city == form.city && r.value.password == form.password
      && !r.value.isAdmin && r.value.createdAt == now
  {
    if Find(users, ClashesWith(form.phone, form.email)).Some? then Failure(DuplicateUserMessage)
    else if |errors| > 0 then InvalidFields(errors)
    else Success(NewUser(form, id, now, formatPhone))
  }

  /** The store after `register`: on success the account is appended and becomes the session. */
  function AfterRegister(entries: map<string, Value>, form: RegistrationForm, errors: map<string, string>,
                         id: string, now: Timestamp, formatPhone: string -> string): (r: map<string, Value>)
    requires WellTyped(entries)
    ensures WellTyped(r)
    ensures r - {UsersKey, CurrentUserKey} == entries - {UsersKey, CurrentUserKey}
    ensures var out := RegisterOutcome(UsersOf(entries), form, errors, id, now, formatPhone);
      && (out.Success? ==> UsersOf(r) == UsersOf(entries) + [out.value] && CurrentUserOf(r) == Some(out.value))
      && (!out.Success? ==> r == entries)
  {
    var users := UsersOf(entries);
    var out := RegisterOutcome(users, form, errors, id, now, formatPhone);
    if out.Success? then entries[UsersKey := UserList(users + [out.value])][CurrentUserKey := UserRecord(out.value)]
    else entries
  }

  method Register(store: Store, form: RegistrationForm, errors: map<string, string>,
                  id: string, now: Timestamp, formatPhone: string -> string) returns (result: AuthResult<User>)
    requires store.Valid()
    modifies store
    ensures store.Valid()
    ensures result == RegisterOutcome(UsersOf(old(store.entries)), form, errors, id, now, formatPhone)
    ensures store.entries == AfterRegister(old(store.entries), form, errors, id, now, formatPhone)
  {
    var users := UsersOf(store.entries);
    var i := FindIndex(users, ClashesWith(form.phone, form.email));
    if i >= 0 {
      result := Failure(DuplicateUserMessage);
      return;
    }
    if |errors| > 0 {
      result := InvalidFields(errors);
      return;
    }
    var newUser := NewUser(form, id, now, formatPhone);
    users := users + [newUser];
    store.Set(UsersKey, UserList(users));
    store.Set(CurrentUserKey, UserRecord(newUser));
    result := Success(newUser);
  }

  function EmailOf(u: User): string {
    u.email
  }

  function PhoneOf(u: User): string {
    u.phone
  }

  /** Registration keeps emails unique: the email is both checked and stored as typed. */
  lemma RegisterKeepsEmailsUnique(entries: map<string, Value>, form: RegistrationForm,
                                  errors: map<string, string>, id: string, now: Timestamp,
                                  formatPhone: string -> string)
    requires WellTyped(entries)
    requires Unique(UsersOf(entries), EmailOf)
    ensures Unique(UsersOf(AfterRegister(entries, form, errors, id, now, formatPhone)), EmailOf)
  {
    var out := RegisterOutcome(UsersOf(entries), form, errors, id, now, formatPhone);
    if out.Success? {
      AppendKeepsUnique(UsersOf(entries), out.value, EmailOf);
    }
  }

  /** Registration keeps phones unique when the phone was typed already formatted. */
  lemma RegisterKeepsPhonesUnique(entries: map<string, Value>, form: RegistrationForm,
                                  errors: map<string, string>, id: string, now: Timestamp,
                                  formatPhone: string -> string)
    requires WellTyped(entries)
    requires Unique(UsersOf(entries), PhoneOf)
    requires formatPhone(form.phone) == form.phone
    ensures Unique(UsersOf(AfterRegister(entries, form, errors, id, now, formatPhone)), PhoneOf)
  {
    var out := RegisterOutcome(UsersOf(entries), form, errors, id, now, formatPhone);
    if out.Success? {
      AppendKeepsUnique(UsersOf(entries), out.value, PhoneOf);
    }
  }

  /**
   * Because the duplicate check sees the phone as typed and the store keeps it formatted, a
   * second account with a stored phone already in use can be registered.
   */
  lemma RegisterAdmitsDuplicatePhone()
    ensures var stored := User("u1", "Ana", "(11) 98765-4321", "ana@example.com", "Rua A", "1", "",
                               "Cidade", "secret1", false, 0);
      var entries := map[UsersKey := UserList([stored])];
      var form := RegistrationForm("Bia", "11987654321", "bia@example.com", "Rua B", "2", None,
                                   "Cidade", "secret2", "secret2");
      var fmt := (p: string) => if p == "11987654321" then "(11) 98765-4321" else p;
      var after := AfterRegister(entries, form, map[], "u2", 1, fmt);
      && Unique(UsersOf(entries), PhoneOf)
      && |UsersOf(after)| == 2
      && UsersOf(after)[0].phone == UsersOf(after)[1].phone
  {
    var stored := User("u1", "Ana", "(11) 98765-4321", "ana@example.com", "Rua A", "1", "",
                       "Cidade", "secret1", false, 0);
    var form := RegistrationForm("Bia", "11987654321", "bia@example.com", "Rua B", "2", None,
                                 "Cidade", "secret2", "secret2");
    assert !ClashesWith(form.phone, form.email)(stored);
  }

  /**
   * After a successful registration, logging in with the stored phone and the password
   * succeeds; it yields the new account unless an older one shares that phone and password.
   */
  lemma RegisterThenLogin(entries: map<string, Value>, form: RegistrationForm,
                          errors: map<string, string>, id: string, now: Timestamp,
                          formatPhone: string -> string)
    requires WellTyped(entries)
    requires RegisterOutcome(UsersOf(entries), form, errors, id, now, formatPhone).Success?
    ensures var after := AfterRegister(entries, form, errors, id, now, formatPhone);
      var out := LoginOutcome(UsersOf(after), formatPhone(form.phone), form.password);
      && out.Success?
      && ((forall k :: 0 <= k < |UsersOf(entries)| ==> UsersOf(entries)[k].phone != formatPhone(form.phone))
          ==> out.value == NewUser(form, id, now, formatPhone))
  {
    var users := UsersOf(entries);
    var after := AfterRegister(entries, form, errors, id, now, formatPhone);
    var newUser := NewUser(form, id, now, formatPhone);
    assert UsersOf(after) == users + [newUser];
    assert UsersOf(after)[|users|] == newUser;
  }

  // ---------------------------------------------------------------- password recovery

  function HasPhone(phone: string): User -> bool {
    (u: User) => u.phone == phone
  }

  /** `forgotPassword`: the first account with the phone has its password shown. */
  function ForgotPassword(users: seq<User>, phone: string): (r: Reply)
    ensures r.success <==> exists k :: 0 <= k < |users| && users[k].phone == phone
    ensures !r.success ==> r.message == UserNotFoundMessage
    ensures r.success ==> exists k :: 0 <= k < |users| && users[k].phone == phone
                            && r.message == PasswordPrefix + users[k].password
                            && forall j :: 0 <= j < k ==> users[j].phone != phone
  {
    var found := Find(users, HasPhone(phone));
    if found.Some? then Reply(true, PasswordPrefix + found.value.password)
    else Reply(false, UserNotFoundMessage)
  }

  /** A newly registered account whose stored phone was new recovers its own password. */
  lemma RegisterThenRecover(entries: map<string, Value>, form: RegistrationForm,
                            errors: map<string, string>, id: string, now: Timestamp,
                            formatPhone: string -> string)
    requires WellTyped(entries)
    requires RegisterOutcome(UsersOf(entries), form, errors, id, now, formatPhone).Success?
    requires forall k :: 0 <= k < |UsersOf(entries)| ==> UsersOf(entries)[k].phone != formatPhone(form.phone)
    ensures ForgotPassword(UsersOf(AfterRegister(entries, form, errors, id, now, formatPhone)),
                           formatPhone(form.phone))
         == Reply(true, PasswordPrefix + form.password)
  {
    var users := UsersOf(entries);
    var after := AfterRegister(entries, form, errors, id, now, formatPhone);
    assert UsersOf(after)[|users|] == NewUser(form, id, now, formatPhone);
  }

  // ---------------------------------------------------------------- admin login

  function HasAdminCredentials(username: string, password: string): AdminAccount -> bool {
    (a: AdminAccount) => a.username == username && a.password == password
  }

  /** `adminLogin`'s answer: the first account with both the username and the password. */
  function AdminLoginOutcome(admins: seq<AdminAccount>, username: string, password: string): (r: AuthResult<AdminAccount>)
    ensures !r.InvalidFields?
    ensures r.Failure? <==> forall k :: 0 <= k < |admins| ==> !(admins[k].username == username && admins[k].password == password)
    ensures r.Failure? ==> r.message == AdminLoginFailedMessage
    ensures r.Success? ==> exists k :: 0 <= k < |admins| && admins[k] == r.value
                                && r.value.username == username && r.value.password == password
                                && forall j :: 0 <= j < k ==> !(admins[j].username == username && admins[j].password == password)
  {
    var found := Find(admins, HasAdminCredentials(username, password));
    if found.Some? then Success(found.value) else Failure(AdminLoginFailedMessage)
  }

  /** The store after `adminLogin`: the admin session is set, or nothing is written. */
  function AfterAdminLogin(entries: map<string, Value>, username: string, password: string): (r: map<string, Value>)
    requires WellTyped(entries)
    ensures WellTyped(r)
    ensures r - {CurrentAdminKey} == entries - {CurrentAdminKey}
    ensures var out := AdminLoginOutcome(AdminsOf(entries), username, password);
      (out.Success? ==> CurrentAdminOf(r) == Some(out.value)) && (!out.Success? ==> r == entries)
  {
    var out := AdminLoginOutcome(AdminsOf(entries), username, password);
    if out.Success? then entries[CurrentAdminKey := AdminRecord(out.value)] else entries
  }

  method AdminLogin(store: Store, username: string, password: string) returns (result: AuthResult<AdminAccount>)
    requires store.Valid()
    modifies store
    ensures store.Valid()
    ensures result == AdminLoginOutcome(AdminsOf(old(store.entries)), username, password)
    ensures store.entries == AfterAdminLogin(old(store.entries), username, password)
  {
    var adminUsers := AdminsOf(store.entries);
    var i := FindIndex(adminUsers, HasAdminCredentials(username, password));
    if i >= 0 {
      var admin := adminUsers[i];
      store.Set(CurrentAdminKey, AdminRecord(admin));
      result := Success(admin);
    } else {
      result := Failure(AdminLoginFailedMessage);
    }
  }

  /** An account added through the admin panel can log in, and the login yields that account. */
  lemma AddAdminThenLogin(admins: seq<AdminAccount>, newAdmin: AdminAccount)
    requires AddAdmin(admins, newAdmin).Some?
    ensures AdminLoginOutcome(AddAdmin(admins, newAdmin).value, newAdmin.username, newAdmin.password)
         == Success(newAdmin)
  {
    var after := AddAdmin(admins, newAdmin).value;
    assert after[|admins|] == newAdmin;
  }

  /** On a fresh store, the seeded accounts are the ones the default credentials open. */
  lemma InitSeedsDefaultLogins(userId: string, userCreatedAt: Timestamp, adminId: string, adminCreatedAt: Timestamp)
    ensures var seeded := AfterInit(map[], userId, userCreatedAt, adminId, adminCreatedAt);
      && LoginOutcome(UsersOf(seeded), DefaultUserPhone, DefaultUserPassword)
         == Success(DefaultUser(userId, userCreatedAt))
      && UsersOf(seeded)[0].isAdmin
      && AdminLoginOutcome(AdminsOf(seeded), RootUsername, DefaultAdminPassword)
         == Success(DefaultAdmin(adminId, adminCreatedAt))
  {
    var seeded := AfterInit(map[], userId, userCreatedAt, adminId, adminCreatedAt);
    assert UsersOf(seeded)[0] == DefaultUser(userId, userCreatedAt);
    assert AdminsOf(seeded)[0] == DefaultAdmin(adminId, adminCreatedAt);
  }

  // ---------------------------------------------------------------- sessions

  /** `isLoggedIn`: a customer session is stored. */
  predicate IsLoggedIn(entries: map<string, Value>): (b: bool)
    requires WellTyped(entries)
    ensures b <==> CurrentUserKey in entries
  {
    CurrentUserOf(entries).Some?
  }

  /** `isAdminLoggedIn`: an admin session is stored. */
  predicate IsAdminLoggedIn(entries: map<string, Value>): (b: bool)
    requires WellTyped(entries)
    ensures b <==> CurrentAdminKey in entries
  {
    CurrentAdminOf(entries).Some?
  }

  /** The store after `logout`: both sessions are gone and nothing else changes. */
  function AfterLogout(entries: map<string, Value>): (r: map<string, Value>)
    requires WellTyped(entries)
    ensures WellTyped(r)
    ensures CurrentUserKey !in r && CurrentAdminKey !in r
    ensures r - {CurrentUserKey, CurrentAdminKey} == entries - {CurrentUserKey, CurrentAdminKey}
  {
    entries - {CurrentUserKey} - {CurrentAdminKey}
  }

  method Logout(store: Store)
    requires store.Valid()
    modifies store
    ensures store.Valid()
    ensures store.entries == AfterLogout(old(store.entries))
  {
    store.Remove(CurrentUserKey);
    store.Remove(CurrentAdminKey);
  }

  /**
   * The session lookups follow the operations: a successful login or registration starts a
   * customer session holding that account, an admin login an admin session, and logout ends
   * both while keeping every stored list.
   */
  lemma SessionLifecycle(entries: map<string, Value>, phone: string, password: string,
                         username: string, adminPassword: string,
                         form: RegistrationForm, errors: map<string, string>, id: string,
                         now: Timestamp, formatPhone: string -> string)
    requires WellTyped(entries)
    ensures var out := RegisterOutcome(UsersOf(entries), form, errors, id, now, formatPhone);
      out.Success? ==> IsLoggedIn(AfterRegister(entries, form, errors, id, now, formatPhone))
                       && CurrentUserOf(AfterRegister(entries, form, errors, id, now, formatPhone)) == Some(out.value)
    ensures var out := LoginOutcome(UsersOf(entries), phone, password);
      out.Success? ==> IsLoggedIn(AfterLogin(entries, phone, password))
                       && CurrentUserOf(AfterLogin(entries, phone, password)) == Some(out.value)
    ensures var out := AdminLoginOutcome(AdminsOf(entries), username, adminPassword);
      out.Success? ==> IsAdminLoggedIn(AfterAdminLogin(entries, username, adminPassword))
                       && CurrentAdminOf(AfterAdminLogin(entries, username, adminPassword)) == Some(out.value)
    ensures !IsLoggedIn(AfterLogout(entries)) && !IsAdminLoggedIn(AfterLogout(entries))
    ensures UsersOf(AfterLogout(entries)) == UsersOf(entries)
    ensures AdminsOf(AfterLogout(entries)) == AdminsOf(entries)
    ensures OrdersOf(AfterLogout(entries)) == OrdersOf(entries)
  {
    var r := AfterLogout(entries);
    assert UsersKey in r <==> UsersKey in entries;
    assert AdminUsersKey in r <==> AdminUsersKey in entries;
    assert OrdersKey in r <==> OrdersKey in entries;
  }
}

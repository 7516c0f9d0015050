/**
 * The administrator endpoints: first-admin setup, category and challenge
 * creation, challenge update and deletion, user creation and the two user
 * toggles. Tables are sequences of rows; a row that a query looked up by
 * id is passed as an `Option`; password hashing, the e-mail regular
 * expression and the clock are parameters.
 */
module AdminRoutes {
  import opened Wrappers
  import opened Json
  import opened Strings
  import opened UserModel
  import opened ChallengeModel

  const MinPasswordLength := 6

  /** Primary keys: no two rows share an id. */
  predicate UniqueIds(users: seq<User>)
  {
    forall i, j :: 0 <= i < j < |users| ==> users[i].id != users[j].id
  }

  /** `require_admin`: `None` lets the request through; otherwise the 403 reply. */
  function RequireAdmin(users: seq<User>, callerId: int): (r: Option<Response>)
    reads set u | u in users
    ensures r.Some? ==> r.value == Response(403, "Admin privileges required")
    ensures UniqueIds(users) ==>
      (r.None? <==> exists i :: 0 <= i < |users| && users[i].id == callerId && users[i].isAdmin)
  {
    var caller := ById(users, callerId);
    if caller.Some? && caller.value.isAdmin then None
    else
      assert UniqueIds(users) ==> forall i :: 0 <= i < |users| && users[i].id == callerId ==> !users[i].isAdmin by {
        if UniqueIds(users) && caller.Some? {
          forall i | 0 <= i < |users| && users[i].id == callerId
            ensures !users[i].isAdmin
          {
            var j :| 0 <= j < |users| && users[j] == caller.value;
            assert i == j;
          }
        }
      }
      Some(Response(403, "Admin privileges required"))
  }

  /** `User.query.filter_by(is_admin=True).first() is not None`; `check_admin_setup` reports it and its negation. */
  function AdminExists(users: seq<User>): (b: bool)
    reads set u | u in users
    ensures b <==> exists i :: 0 <= i < |users| && users[i].isAdmin
  {
    if users == [] then false
    else if users[0].isAdmin then true
    else
      var b := AdminExists(users[1..]);
      assert b ==> exists i :: 0 <= i < |users| && users[i].isAdmin by {
        if b {
          var i :| 0 <= i < |users[1..]| && users[1..][i].isAdmin;
          assert users[i + 1].isAdmin;
        }
      }
      assert (exists i :: 0 <= i < |users| && users[i].isAdmin) ==> b by {
        if exists i :: 0 <= i < |users| && users[i].isAdmin {
          var i :| 0 <= i < |users| && users[i].isAdmin;
          assert i > 0 && users[1..][i - 1].isAdmin;
        }
      }
      b
  }

  /**
   * `filter_by(email=v).first()` for a bindable `v`: the text column
   * compares the value as its text, so the number 7 finds the address "7".
   */
  predicate EmailTaken(users: seq<User>, v: Value)
    reads set u | u in users
  {
    ColumnText(v).Some? && ByEmail(users, ColumnText(v).value).Some?
  }

  /** `filter_by(username=v).first()` for a bindable `v`, compared as text. */
  predicate UsernameTaken(users: seq<User>, v: Value)
    reads set u | u in users
  {
    ColumnText(v).Some? && ByUsername(users, ColumnText(v).value).Some?
  }

  /** The columns of a user account an administrator creates. */
  datatype NewAccount = NewAccount(username: string, email: string, password: string,
                                   firstName: Value, lastName: Value, bio: Value, isAdmin: bool, isVerified: bool)

  datatype AccountOutcome = AccountRejected(response: Response) | AccountAccepted(account: NewAccount)

  const SetupFailed := Response(500, "Failed to create admin account")

  /**
   * `setup_admin`, up to the insertion: refused once an admin exists, then
   * the five required fields, then the e-mail lookup and the username
   * lookup, each taken means 400 (neither value is normalised here). A
   * body that is not a dict, a list or dict given to a lookup (it cannot
   * be bound), a non-string password (the hash raises), or a list or dict
   * for the optional text columns (the commit raises) end in the 500 reply.
   * A number or boolean name or e-mail is stored as its text.
   */
  function SetupAdmin(body: Value, users: seq<User>): (o: AccountOutcome)
    reads set u | u in users
    ensures AdminExists(users) ==> o == AccountRejected(Response(400, "Admin account already exists"))
    ensures o.AccountAccepted? ==>
      body.JObject? && o.account.isAdmin && o.account.isVerified
      && FirstMissing(body.fields, SetupRequired).None?
      && ByEmail(users, o.account.email).None? && ByUsername(users, o.account.username).None?
      && ColumnText(GetOr(body.fields, "email", JNull)) == Some(o.account.email)
      && ColumnText(GetOr(body.fields, "username", JNull)) == Some(o.account.username)
  {
    if AdminExists(users) then AccountRejected(Response(400, "Admin account already exists"))
    else if !body.JObject? then AccountRejected(SetupFailed)
    else
      var missing := FirstMissing(body.fields, SetupRequired);
      if missing.Some? then AccountRejected(Response(400, missing.value + " is required"))
      else
        var username := GetOr(body.fields, "username", JNull);
        var email := GetOr(body.fields, "email", JNull);
        var password := GetOr(body.fields, "password", JNull);
        if !Bindable(email) then AccountRejected(SetupFailed)
        else if EmailTaken(users, email) then AccountRejected(Response(400, "Email already registered"))
        else if !Bindable(username) then AccountRejected(SetupFailed)
        else if UsernameTaken(users, username) then AccountRejected(Response(400, "Username already taken"))
        else if !password.JStr? || !SetupColumnsBindable(body.fields) then AccountRejected(SetupFailed)
        else
          AccountAccepted(NewAccount(ColumnText(username).value, ColumnText(email).value, password.s,
                                     StoredText(GetOr(body.fields, "first_name", JNull)),
                                     StoredText(GetOr(body.fields, "last_name", JNull)),
                                     StoredText(GetOr(body.fields, "bio", JStr(""))), true, true))
  }

  const SetupRequired: seq<string> := ["username", "email", "password", "first_name", "last_name"]

  /** The optional text columns of `setup_admin` can be written. */
  predicate SetupColumnsBindable(f: seq<(string, Value)>)
  {
    Bindable(GetOr(f, "first_name", JNull)) && Bindable(GetOr(f, "last_name", JNull)) && Bindable(GetOr(f, "bio", JStr("")))
  }

  /**
   * A setup request is accepted exactly when no administrator exists, the
   * five required fields are given, the name and the e-mail are scalars,
   * the password is a string, the other columns can be written, and
   * neither the e-mail's text nor the username's text is registered.
   */
  lemma SetupAdminAccepts(body: Value, users: seq<User>)
    ensures SetupAdmin(body, users).AccountAccepted? <==>
      !AdminExists(users) && body.JObject? && AllGiven(body.fields, SetupRequired)
      && var username := GetOr(body.fields, "username", JNull);
      var email := GetOr(body.fields, "email", JNull);
      ColumnText(username).Some? && ColumnText(email).Some?
      && GetOr(body.fields, "password", JNull).JStr? && SetupColumnsBindable(body.fields)
      && ByEmail(users, ColumnText(email).value).None?
      && ByUsername(users, ColumnText(username).value).None?
  {
  }

  /**
   * An e-mail that cannot be bound fails its lookup, the first query after
   * the required fields: 500, even when the username is taken.
   */
  lemma SetupUnbindableEmailFails(body: Value, users: seq<User>)
    requires forall i :: 0 <= i < |users| ==> !users[i].isAdmin
    requires body.JObject? && AllGiven(body.fields, SetupRequired)
    requires !Bindable(GetOr(body.fields, "email", JNull))
    ensures SetupAdmin(body, users) == AccountRejected(SetupFailed)
  {
  }

  /** A new row holding an accepted account. */
  /** The row holds every column of the account, the hash of its password, and is active. */
  predicate RowHolds(u: User, a: NewAccount, hash: string -> string, id: int)
    reads u
  {
    u.id == id && u.username == a.username && u.email == a.email && u.passwordHash == hash(a.password)
    && u.firstName == a.firstName && u.lastName == a.lastName && u.bio == a.bio
    && u.isAdmin == a.isAdmin && u.isVerified == a.isVerified && u.isActive
  }

  method InsertAccount(users: seq<User>, a: NewAccount, hash: string -> string, id: int, now: int)
    returns (table: seq<User>)
    ensures |table| == |users| + 1 && table[..|users|] == users && fresh(table[|users|])
    ensures RowHolds(table[|users|], a, hash, id)
  {
    var user := new User(id, a.username, a.email, hash(a.password), now);
    user.firstName, user.lastName, user.bio := a.firstName, a.lastName, a.bio;
    user.isAdmin, user.isVerified := a.isAdmin, a.isVerified;
    table := users + [user];
  }

  /**
   * `setup_admin` with its effect: an accepted request appends a verified
   * admin, after which an admin exists and every later setup is refused.
   */
  method SetupAdminRoute(users: seq<User>, body: Value, hash: string -> string, id: int, now: int)
    returns (resp: Response, table: seq<User>)
    ensures var o := old(SetupAdmin(body, users));
      o.AccountRejected? ==> resp == o.response && table == users
    ensures var o := old(SetupAdmin(body, users));
      o.AccountAccepted? ==>
        resp.status == 201 && |table| == |users| + 1 && table[..|users|] == users && fresh(table[|users|])
        && RowHolds(table[|users|], o.account, hash, id) && table[|users|].isAdmin && table[|users|].isVerified
    ensures old(SetupAdmin(body, users)).AccountAccepted? ==> AdminExists(table)
  {
    var outcome := SetupAdmin(body, users);
    if outcome.AccountRejected? {
      return outcome.response, users;
    }
    table := InsertAccount(users, outcome.account, hash, id, now);
    assert table[|users|].isAdmin;
    resp := Response(201, "Admin account created successfully");
  }

  /** A second setup request after a successful one is refused, whatever it carries. */
  lemma SetupOnce(users: seq<User>, body: Value)
    requires exists i :: 0 <= i < |users| && users[i].isAdmin
    ensures SetupAdmin(body, users) == AccountRejected(Response(400, "Admin account already exists"))
  {
  }

  const UnexpectedError := Response(500, "")

  /**
   * `create_user`, up to the insertion: the three required fields, the
   * e-mail lookup, the username lookup, the e-mail format (`emailFormat` is
   * the regular expression of the route), then the password length. A list
   * or dict given to a lookup, a non-string value reaching the regular
   * expression, `len` or the hash, a list or dict for a text column, and
   * an `is_admin` the strict Boolean column refuses all raise; that 500
   * reply carries the exception's text, which is not modelled. A number or
   * boolean username is stored as its text.
   */
  function CreateUser(body: Value, users: seq<User>, emailFormat: string -> bool): (o: AccountOutcome)
    reads set u | u in users
    ensures o.AccountAccepted? ==>
      body.JObject? && FirstMissing(body.fields, CreateRequired).None?
      && ByEmail(users, o.account.email).None? && ByUsername(users, o.account.username).None?
      && emailFormat(o.account.email) && |o.account.password| >= MinPasswordLength
      && !o.account.isVerified
      && GetOr(body.fields, "email", JNull) == JStr(o.account.email)
      && ColumnText(GetOr(body.fields, "username", JNull)) == Some(o.account.username)
      && Some(o.account.isAdmin) == StrictBool(GetOr(body.fields, "is_admin", JBool(false)))
  {
    if !body.JObject? then AccountRejected(UnexpectedError)
    else
      var missing := FirstMissing(body.fields, CreateRequired);
      if missing.Some? then AccountRejected(Response(400, missing.value + " is required"))
      else
        var username := GetOr(body.fields, "username", JNull);
        var email := GetOr(body.fields, "email", JNull);
        var password := GetOr(body.fields, "password", JNull);
        if !Bindable(email) then AccountRejected(UnexpectedError)
        else if EmailTaken(users, email) then AccountRejected(Response(400, "Email already registered"))
        else if !Bindable(username) then AccountRejected(UnexpectedError)
        else if UsernameTaken(users, username) then AccountRejected(Response(400, "Username already taken"))
        else if !email.JStr? then AccountRejected(UnexpectedError)
        else if !emailFormat(email.s) then AccountRejected(Response(400, "Invalid email format"))
        else if PyLen(password).None? then AccountRejected(UnexpectedError)
        else if PyLen(password).value < MinPasswordLength then
          AccountRejected(Response(400, "Password must be at least 6 characters long"))
        else if !password.JStr? || !CreateColumnsBindable(body.fields) then AccountRejected(UnexpectedError)
        else
          var admin := StrictBool(GetOr(body.fields, "is_admin", JBool(false)));
          if admin.None? then AccountRejected(UnexpectedError)
          else
            AccountAccepted(NewAccount(ColumnText(username).value, email.s, password.s,
                                       StoredText(GetOr(body.fields, "first_name", JNull)),
                                       StoredText(GetOr(body.fields, "last_name", JNull)),
                                       StoredText(GetOr(body.fields, "bio", JNull)), admin.value, false))
  }

  /**
   * The `is_admin` value as the non-nullable Boolean column stores it: a
   * boolean, or 0 and 1, which Python counts as booleans; `null` leaves the
   * column to its default, false. Anything else fails the commit.
   */
  function StrictBool(v: Value): (r: Option<bool>)
    ensures v.JBool? ==> r == Some(v.b)
    ensures r.Some? <==> v.JBool? || v.JNull? || v == JNum(0) || v == JNum(1)
    ensures r.Some? && !v.JNull? ==> r.value == Truthy(v)
  {
    match v
    case JBool(b) => Some(b)
    case JNull => Some(false)
    case JNum(n) => if n == 0 then Some(false) else if n == 1 then Some(true) else None
    case _ => None
  }

  const CreateRequired: seq<string> := ["username", "email", "password"]

  /** The optional text columns of `create_user` can be written. */
  predicate CreateColumnsBindable(f: seq<(string, Value)>)
  {
    Bindable(GetOr(f, "first_name", JNull)) && Bindable(GetOr(f, "last_name", JNull)) && Bindable(GetOr(f, "bio", JNull))
  }

  /**
   * A request to create a user is accepted exactly when the three required
   * fields are given, the e-mail and the password as strings and the
   * username as a scalar, neither the e-mail nor the username's text is
   * registered, the e-mail matches the format, the password has 6
   * characters or more, the other text columns can be written and the role
   * is one the Boolean column holds.
   */
  lemma CreateUserAccepts(body: Value, users: seq<User>, emailFormat: string -> bool)
    ensures CreateUser(body, users, emailFormat).AccountAccepted? <==>
      body.JObject? && AllGiven(body.fields, CreateRequired)
      && var username := GetOr(body.fields, "username", JNull);
      var email := GetOr(body.fields, "email", JNull);
      var password := GetOr(body.fields, "password", JNull);
      ColumnText(username).Some? && email.JStr? && password.JStr?
      && ByEmail(users, email.s).None? && ByUsername(users, ColumnText(username).value).None?
      && emailFormat(email.s) && |password.s| >= MinPasswordLength
      && CreateColumnsBindable(body.fields) && StrictBool(GetOr(body.fields, "is_admin", JBool(false))).Some?
  {
    if body.JObject? {
      var password := GetOr(body.fields, "password", JNull);
      if password.JStr? {
        assert PyLen(password) == Some(|password.s|);
      }
    }
  }

  /** A role given as a string, even `"true"`, fails the commit: no account is created. */
  lemma StringRoleRefused(body: Value, users: seq<User>, emailFormat: string -> bool)
    requires body.JObject? && GetOr(body.fields, "is_admin", JBool(false)).JStr?
    ensures CreateUser(body, users, emailFormat).AccountRejected?
  {
  }

  /** A taken e-mail is reported before the username, the format and the password are looked at. */
  lemma EmailTakenFirst(body: Value, users: seq<User>, f: string -> bool, g: string -> bool)
    requires body.JObject? && FirstMissing(body.fields, CreateRequired).None?
    requires EmailTaken(users, GetOr(body.fields, "email", JNull))
    ensures CreateUser(body, users, f) == CreateUser(body, users, g) == AccountRejected(Response(400, "Email already registered"))
  {
  }

  /**
   * A username that cannot be bound fails its lookup: once the e-mail is
   * free, the reply is the 500, whatever the format and the password.
   */
  lemma UnbindableUsernameFails(body: Value, users: seq<User>, f: string -> bool)
    requires body.JObject? && FirstMissing(body.fields, CreateRequired).None?
    requires GetOr(body.fields, "email", JNull).JStr? && !EmailTaken(users, GetOr(body.fields, "email", JNull))
    requires !Bindable(GetOr(body.fields, "username", JNull))
    ensures CreateUser(body, users, f) == AccountRejected(UnexpectedError)
  {
  }

  /** A number given as the username is accepted like a string and stored as its decimal text. */
  lemma NumericUsernameStored(body: Value, users: seq<User>, f: string -> bool, n: int)
    requires body.JObject? && GetOr(body.fields, "username", JNull) == JNum(n)
    ensures CreateUser(body, users, f).AccountAccepted? ==> CreateUser(body, users, f).account.username == IntToString(n)
  {
  }

  /** With both names free and a well-formed e-mail, a short password is the reply. */
  lemma ShortPasswordLast(body: Value, users: seq<User>, f: string -> bool)
    requires body.JObject? && FirstMissing(body.fields, CreateRequired).None?
    requires Bindable(GetOr(body.fields, "username", JNull))
    requires !EmailTaken(users, GetOr(body.fields, "email", JNull)) && !UsernameTaken(users, GetOr(body.fields, "username", JNull))
    requires GetOr(body.fields, "email", JNull).JStr? && f(GetOr(body.fields, "email", JNull).s)
    requires GetOr(body.fields, "password", JNull).JStr? && |GetOr(body.fields, "password", JNull).s| < MinPasswordLength
    ensures CreateUser(body, users, f) == AccountRejected(Response(400, "Password must be at least 6 characters long"))
  {
  }

  /** `create_user` with its effect. */
  method CreateUserRoute(users: seq<User>, body: Value, emailFormat: string -> bool, hash: string -> string, id: int, now: int)
    returns (resp: Response, table: seq<User>)
    ensures var o := old(CreateUser(body, users, emailFormat));
      o.AccountRejected? ==> resp == o.response && table == users
    ensures var o := old(CreateUser(body, users, emailFormat));
      o.AccountAccepted? ==>
        resp.status == 201 && |table| == |users| + 1 && table[..|users|] == users && fresh(table[|users|])
        && RowHolds(table[|users|], o.account, hash, id) && table[|users|].isActive && !table[|users|].isVerified
  {
    var outcome := CreateUser(body, users, emailFormat);
    if outcome.AccountRejected? {
      return outcome.response, users;
    }
    table := InsertAccount(users, outcome.account, hash, id, now);
    resp := Response(201, "User created successfully");
  }

  /**
   * `toggle_user_active` on the row the id named (`None`: no such row).
   * Another administrator cannot be touched; anyone else, the caller
   * included, has the flag flipped and the update time set.
   */
  method ToggleUserActive(target: Option<User>, callerId: int, now: int) returns (resp: Response)
    modifies (if target.Some? then {target.value} else {})`isActive
    modifies (if target.Some? then {target.value} else {})`updatedAt
    ensures target.None? ==> resp == Response(404, "User not found")
    ensures target.Some? && old(target.value.isAdmin) && target.value.id != callerId ==>
      resp == Response(403, "Cannot deactivate other admin users")
      && target.value.isActive == old(target.value.isActive) && target.value.updatedAt == old(target.value.updatedAt)
    ensures target.Some? && !(old(target.value.isAdmin) && target.value.id != callerId) ==>
      resp.status == 200 && target.value.isActive == !old(target.value.isActive) && target.value.updatedAt == now
      && resp.message == (if target.value.isActive then "User activated successfully" else "User deactivated successfully")
  {
    if target.None? {
      return Response(404, "User not found");
    }
    var user := target.value;
    if user.isAdmin && user.id != callerId {
      return Response(403, "Cannot deactivate other admin users");
    }
    user.isActive := !user.isActive;
    user.updatedAt := now;
    resp := Response(200, if user.isActive then "User activated successfully" else "User deactivated successfully");
  }

  /**
   * `toggle_user_admin` on the row the id named. An administrator cannot
   * demote themself, so the calling admin is an admin afterwards too.
   */
  method ToggleUserAdmin(target: Option<User>, callerId: int, now: int) returns (resp: Response)
    modifies (if target.Some? then {target.value} else {})`isAdmin
    modifies (if target.Some? then {target.value} else {})`updatedAt
    ensures target.None? ==> resp == Response(404, "User not found")
    ensures target.Some? && target.value.id == callerId && old(target.value.isAdmin) ==>
      resp == Response(403, "Cannot remove admin privileges from yourself")
      && target.value.isAdmin && target.value.updatedAt == old(target.value.updatedAt)
    ensures target.Some? && !(target.value.id == callerId && old(target.value.isAdmin)) ==>
      resp.status == 200 && target.value.isAdmin == !old(target.value.isAdmin) && target.value.updatedAt == now
      && resp.message == (if target.value.isAdmin then "User promoted to admin successfully" else "User removed from admin successfully")
  {
    if target.None? {
      return Response(404, "User not found");
    }
    var user := target.value;
    if user.id == callerId && user.isAdmin {
      return Response(403, "Cannot remove admin privileges from yourself");
    }
    user.isAdmin := !user.isAdmin;
    user.updatedAt := now;
    resp := Response(200, if user.isAdmin then "User promoted to admin successfully" else "User removed from admin successfully");
  }

  /** What `create_category` inserts. */
  datatype CategoryOutcome = CategoryRejected(response: Response) | CategoryCreated(category: Category)

  /**
   * `create_category`: a truthy name whose text no category has yet;
   * description, icon and colour default to '', 'folder' and '#3B82F6'. A
   * list or dict name cannot be bound in the lookup, and one in the other
   * columns cannot be bound at the commit: both raise. The text columns
   * hold what they were given as text.
   */
  function CreateCategory(body: Value, categories: seq<Category>, id: int): (o: CategoryOutcome)
    ensures o.CategoryCreated? <==>
      body.JObject? && Truthy(GetOr(body.fields, "name", JNull)) && Bindable(GetOr(body.fields, "name", JNull))
      && (forall c :: c in categories ==> ColumnText(c.name) != ColumnText(GetOr(body.fields, "name", JNull)))
      && CategoryColumnsBindable(body.fields)
    ensures o.CategoryCreated? ==>
      o.category.name.JStr? && ColumnText(o.category.name) == ColumnText(GetOr(body.fields, "name", JNull))
      && o.category.id == id && o.category.publishedCount == 0
    ensures o.CategoryRejected? && o.response.status == 409 <==>
      body.JObject? && Truthy(GetOr(body.fields, "name", JNull)) && Bindable(GetOr(body.fields, "name", JNull))
      && exists c :: c in categories && ColumnText(c.name) == ColumnText(GetOr(body.fields, "name", JNull))
  {
    if !body.JObject? then CategoryRejected(CategoryFailed)
    else
      var name := GetOr(body.fields, "name", JNull);
      if !Truthy(name) then CategoryRejected(Response(400, "Category name is required"))
      else if !Bindable(name) then CategoryRejected(CategoryFailed)
      else if exists c :: c in categories && ColumnText(c.name) == ColumnText(name) then
        CategoryRejected(Response(409, "Category already exists"))
      else if !CategoryColumnsBindable(body.fields) then CategoryRejected(CategoryFailed)
      else
        CategoryCreated(Category(id, StoredText(name), StoredText(GetOr(body.fields, "description", JStr(""))),
                                 StoredText(GetOr(body.fields, "icon", JStr("folder"))),
                                 StoredText(GetOr(body.fields, "color", JStr("#3B82F6"))), 0))
  }

  /** The description, icon and colour of `create_category` can be written. */
  predicate CategoryColumnsBindable(f: seq<(string, Value)>)
  {
    Bindable(GetOr(f, "description", JStr(""))) && Bindable(GetOr(f, "icon", JStr("folder")))
    && Bindable(GetOr(f, "color", JStr("#3B82F6")))
  }

  /** A new category's name equals an existing one's when their texts agree: the number 7 is a duplicate of "7". */
  lemma NumericNameDuplicate(body: Value, categories: seq<Category>, id: int, c: Category, n: int)
    requires body.JObject? && GetOr(body.fields, "name", JNull) == JNum(n) && n != 0
    requires c in categories && c.name == JStr(IntToString(n))
    ensures CreateCategory(body, categories, id) == CategoryRejected(Response(409, "Category already exists"))
  {
    assert ColumnText(c.name) == ColumnText(GetOr(body.fields, "name", JNull));
  }

  const CategoryFailed := Response(500, "Failed to create category")

  /** The defaults of a new category. */
  lemma CategoryDefaults(body: Value, categories: seq<Category>, id: int)
    requires body.JObject? && !HasKey(body.fields, "description") && !HasKey(body.fields, "icon") && !HasKey(body.fields, "color")
    requires CreateCategory(body, categories, id).CategoryCreated?
    ensures CreateCategory(body, categories, id).category.description == JStr("")
    ensures CreateCategory(body, categories, id).category.icon == JStr("folder")
    ensures CreateCategory(body, categories, id).category.color == JStr("#3B82F6")
  {
  }

  /** A question `create_challenge` accepts: a dict with truthy text and a truthy answer. */
  predicate QuestionComplete(q: Value)
  {
    q.JObject? && Truthy(GetOr(q.fields, "question", JNull)) && Truthy(GetOr(q.fields, "correct_answer", JNull))
  }

  const ChallengeFailed := Response(500, "Failed to create challenge")

  /** The reply for an incomplete question at 1-based position `number`; `.get` on a non-dict raises. */
  function QuestionError(number: nat, q: Value): Response
  {
    if !q.JObject? then ChallengeFailed
    else if !Truthy(GetOr(q.fields, "question", JNull)) then Response(400, "Question " + NatToString(number) + " text is required")
    else Response(400, "Question " + NatToString(number) + " correct answer is required")
  }

  /** The loop over `enumerate(questions)` from position `i`: the first incomplete question is reported. */
  function QuestionProblem(qs: seq<Value>, i: nat): (r: Option<Response>)
    requires i <= |qs|
    ensures r.None? <==> forall k :: i <= k < |qs| ==> QuestionComplete(qs[k])
    ensures r.Some? ==> exists k :: (i <= k < |qs| && !QuestionComplete(qs[k]) && r.value == QuestionError(k + 1, qs[k])
      && forall j :: i <= j < k ==> QuestionComplete(qs[j]))
    decreases |qs| - i
  {
    if i == |qs| then None
    else if !QuestionComplete(qs[i]) then Some(QuestionError(i + 1, qs[i]))
    else QuestionProblem(qs, i + 1)
  }

  /**
   * A column with a default, on insertion: the ORM leaves a `None` attribute
   * out of the INSERT, so the column default applies instead.
   */
  function Inserted(v: Value, default: Value): (r: Value)
    ensures r.JNull? ==> default.JNull?
    ensures !v.JNull? ==> r == v
  {
    if v.JNull? then default else v
  }

  /** The value columns of a challenge created from a valid request, the legacy answer columns blanked. */
  function NewChallengeColumns(f: seq<(string, Value)>): (m: map<string, Value>)
    ensures "questions" in m && m["questions"] == GetOr(f, "questions", JArray([]))
    ensures "is_published" in m && !m["is_published"].JNull?
      && (HasKey(f, "is_published") && !Get(f, "is_published").value.JNull? ==> m["is_published"] == Get(f, "is_published").value)
    ensures "is_featured" in m && !m["is_featured"].JNull? && "points" in m && !m["points"].JNull?
  {
    map["title" := GetOr(f, "title", JNull), "description" := GetOr(f, "description", JNull),
        "scenario" := GetOr(f, "scenario", JStr("")), "instructions" := GetOr(f, "instructions", JNull),
        "hints" := GetOr(f, "hints", JArray([])),
        "challenge_type" := GetOr(f, "challenge_type", JNull), "difficulty" := GetOr(f, "difficulty", JNull),
        "points" := Inserted(GetOr(f, "points", JNum(100)), JNum(100)), "time_limit" := GetOr(f, "time_limit", JNull),
        "file_attachments" := GetOr(f, "file_attachments", JArray([])),
        "docker_image" := GetOr(f, "docker_image", JNull), "environment_url" := GetOr(f, "environment_url", JNull),
        "author" := GetOr(f, "author", JStr("System")), "series" := GetOr(f, "series", JNull),
        "operating_system" := GetOr(f, "operating_system", JNull),
        "suggested_tools" := GetOr(f, "suggested_tools", JArray([])),
        "answer_type" := JStr("structured"), "correct_answer" := JStr(""), "answer_format" := JStr(""),
        "validation_regex" := JStr(""), "is_featured" := Inserted(GetOr(f, "is_featured", JBool(false)), JBool(false)),
        "category_id" := GetOr(f, "category_id", JNull)]
    + map["questions" := GetOr(f, "questions", JArray([])), "is_published" := Inserted(GetOr(f, "is_published", JBool(false)), JBool(false))]
  }

  /** An explicit null for points or a publishing flag inserts that column's default, as an absent key does. */
  lemma NullsTakeDefaults(f: seq<(string, Value)>)
    requires GetOr(f, "points", JNull) == JNull && GetOr(f, "is_published", JNull) == JNull
    requires GetOr(f, "is_featured", JNull) == JNull
    ensures NewChallengeColumns(f)["points"] == JNum(100)
    ensures NewChallengeColumns(f)["is_published"] == JBool(false) && NewChallengeColumns(f)["is_featured"] == JBool(false)
  {
  }

  datatype ChallengeOutcome = ChallengeRejected(response: Response) | ChallengeAccepted(columns: map<string, Value>)

  /** The JSON columns of a challenge, which hold any decoded value. */
  const JsonColumns: set<string> := {"questions", "hints", "file_attachments", "suggested_tools"}

  /** The Boolean columns of a challenge. */
  const BooleanColumns: set<string> := {"is_published", "is_featured"}

  /** The NOT NULL columns `update_challenge` can write; an insertion leaves a null to the default instead. */
  const NotNullColumns: set<string> := {"title", "description", "instructions", "challenge_type", "difficulty", "points",
                                        "answer_type", "is_published", "is_featured", "category_id"}

  /**
   * A value the challenge column `name` takes at the commit: a JSON column
   * any value, a Boolean column what `StrictBool` accepts, any other
   * column (text or integer) a bindable scalar.
   */
  predicate Writable(name: string, v: Value)
  {
    if name in JsonColumns then true
    else if name in BooleanColumns then StrictBool(v).Some?
    else Bindable(v)
  }

  /** Every column of a new row can be written. */
  predicate AllWritable(m: map<string, Value>)
  {
    forall n :: n in m ==> Writable(n, m[n])
  }

  /**
   * `ChallengeCategory.query.get(v)` finds a row: the integer primary key
   * compares `v` under INTEGER affinity, so 1, "1" and `true` all name
   * category 1.
   */
  predicate CategoryExists(categories: seq<Category>, v: Value)
  {
    IntegerKey(v).Some? && exists c :: c in categories && c.id == IntegerKey(v).value
  }

  /** A category is named by its id as a number, as decimal text, and (for id 1) as `true`. */
  lemma CategoryIdSpellings(categories: seq<Category>, c: Category)
    requires c in categories
    ensures CategoryExists(categories, JNum(c.id)) && CategoryExists(categories, JStr(IntToString(c.id)))
    ensures c.id == 1 ==> CategoryExists(categories, JBool(true))
  {
    IntegerTextRoundTrip(c.id);
  }

  const RequiredChallengeFields: seq<string> := ["title", "description", "instructions", "challenge_type", "difficulty", "category_id"]

  /**
   * `create_challenge`, up to the insertion: the six required fields, then
   * each question when the list is truthy, then the category, then the
   * commit. A list or dict category id is not read as a key here (it
   * raises), a category id that equals no category's is refused, and a
   * column value the column cannot hold raises at the commit.
   */
  function CreateChallenge(body: Value, categories: seq<Category>): (o: ChallengeOutcome)
    ensures o.ChallengeAccepted? ==>
      body.JObject? && FirstMissing(body.fields, RequiredChallengeFields).None?
      && (var qs := GetOr(body.fields, "questions", JArray([]));
          Truthy(qs) ==> qs.JArray? && forall k :: 0 <= k < |qs.items| ==> QuestionComplete(qs.items[k]))
      && CategoryExists(categories, GetOr(body.fields, "category_id", JNull))
      && o.columns == NewChallengeColumns(body.fields) && AllWritable(o.columns)
  {
    if !body.JObject? then ChallengeRejected(ChallengeFailed)
    else
      var missing := FirstMissing(body.fields, RequiredChallengeFields);
      if missing.Some? then ChallengeRejected(Response(400, missing.value + " is required"))
      else
        var qs := GetOr(body.fields, "questions", JArray([]));
        if Truthy(qs) && !qs.JArray? then ChallengeRejected(ChallengeFailed)
        else if Truthy(qs) && QuestionProblem(qs.items, 0).Some? then ChallengeRejected(QuestionProblem(qs.items, 0).value)
        else if !Bindable(GetOr(body.fields, "category_id", JNull)) then ChallengeRejected(ChallengeFailed)
        else if !CategoryExists(categories, GetOr(body.fields, "category_id", JNull)) then
          ChallengeRejected(Response(400, "Invalid category"))
        else if !AllWritable(NewChallengeColumns(body.fields)) then ChallengeRejected(ChallengeFailed)
        else ChallengeAccepted(NewChallengeColumns(body.fields))
  }

  /**
   * A challenge is accepted exactly when the six required fields are given,
   * every question of a non-empty list has its text and answer, the
   * category id names a category, and every column can hold its value.
   */
  lemma CreateChallengeAccepts(body: Value, categories: seq<Category>)
    ensures CreateChallenge(body, categories).ChallengeAccepted? <==>
      body.JObject? && AllGiven(body.fields, RequiredChallengeFields)
      && (var qs := GetOr(body.fields, "questions", JArray([]));
          Truthy(qs) ==> qs.JArray? && forall k :: 0 <= k < |qs.items| ==> QuestionComplete(qs.items[k]))
      && CategoryExists(categories, GetOr(body.fields, "category_id", JNull))
      && AllWritable(NewChallengeColumns(body.fields))
  {
  }

  /** A publish flag given as text, even "yes", fails the Boolean column: no challenge is created. */
  lemma TextPublishFlagRefused(body: Value, categories: seq<Category>)
    requires body.JObject? && GetOr(body.fields, "is_published", JBool(false)).JStr?
    ensures CreateChallenge(body, categories).ChallengeRejected?
  {
    PublishColumn(body.fields);
  }

  /** The publish column of a new row is the body's flag whenever one that is not null is given. */
  lemma PublishColumn(f: seq<(string, Value)>)
    requires GetOr(f, "is_published", JBool(false)).JStr?
    ensures !AllWritable(NewChallengeColumns(f))
  {
    var m := NewChallengeColumns(f);
    assert m["is_published"] == GetOr(f, "is_published", JBool(false));
    assert !Writable("is_published", m["is_published"]);
  }

  /** A list title passes the required-field check and then fails the commit with 500. */
  lemma ListTitleFails(body: Value, categories: seq<Category>)
    requires body.JObject? && AllGiven(body.fields, RequiredChallengeFields)
    requires !Truthy(GetOr(body.fields, "questions", JArray([])))
    requires CategoryExists(categories, GetOr(body.fields, "category_id", JNull))
    requires GetOr(body.fields, "title", JNull).JArray?
    ensures CreateChallenge(body, categories) == ChallengeRejected(ChallengeFailed)
  {
    TitleColumn(body.fields);
  }

  /** The title column of a new row is the body's title, which no list can fill. */
  lemma TitleColumn(f: seq<(string, Value)>)
    requires GetOr(f, "title", JNull).JArray?
    ensures !AllWritable(NewChallengeColumns(f))
  {
    var m := NewChallengeColumns(f);
    assert "title" in m && m["title"] == GetOr(f, "title", JNull);
    assert !Writable("title", m["title"]);
  }

  /** An incomplete question is reported by its 1-based position, before the category is looked up. */
  lemma FirstBadQuestionReported(body: Value, categories: seq<Category>, k: nat)
    requires body.JObject? && FirstMissing(body.fields, RequiredChallengeFields).None?
    requires GetOr(body.fields, "questions", JArray([])).JArray?
    requires var qs := GetOr(body.fields, "questions", JArray([])).items;
      k < |qs| && !QuestionComplete(qs[k]) && forall j :: 0 <= j < k ==> QuestionComplete(qs[j])
    ensures CreateChallenge(body, categories) == CreateChallenge(body, [])
    ensures CreateChallenge(body, categories) ==
      ChallengeRejected(QuestionError(k + 1, GetOr(body.fields, "questions", JArray([])).items[k]))
  {
    var qv := GetOr(body.fields, "questions", JArray([]));
    QuestionProblemAt(qv.items, 0, k);
    assert Truthy(qv);
  }

  /** The loop from position `i` stops at the first incomplete question. */
  lemma {:induction false} QuestionProblemAt(qs: seq<Value>, i: nat, k: nat)
    requires i <= k < |qs| && !QuestionComplete(qs[k]) && forall j :: i <= j < k ==> QuestionComplete(qs[j])
    ensures QuestionProblem(qs, i) == Some(QuestionError(k + 1, qs[k]))
    decreases k - i
  {
    if i < k {
      QuestionProblemAt(qs, i + 1, k);
    }
  }

  /**
   * `create_challenge` with its effect: the new row holds the columns of
   * the request, and it has a publish date exactly when it is published.
   */
  method CreateChallengeRoute(body: Value, categories: seq<Category>, id: int, callerId: int, now: int)
    returns (resp: Response, created: Option<Challenge>)
    ensures var o := CreateChallenge(body, categories);
      o.ChallengeRejected? ==> resp == o.response && created.None?
    ensures var o := CreateChallenge(body, categories);
      o.ChallengeAccepted? ==>
        resp.status == 201 && created.Some? && fresh(created.value)
        && (forall n :: n in o.columns ==> created.value.Column(n) == o.columns[n])
        && created.value.createdBy == callerId
        && (created.value.publishDate.Some? <==> Truthy(GetOr(body.fields, "is_published", JBool(false))))
        && (created.value.publishDate.Some? ==> created.value.publishDate.value == now)
  {
    var outcome := CreateChallenge(body, categories);
    if outcome.ChallengeRejected? {
      return outcome.response, None;
    }
    var c := new Challenge(id, outcome.columns, callerId, now);
    if Truthy(c.Column("is_published")) {
      c.publishDate := Some(now);
    }
    resp := Response(201, "Challenge created successfully");
    created := Some(c);
  }

  /** The `setattr` loop of `update_challenge` over the whitelist `names`: listed keys of the body are copied, nothing else. */
  method CopyColumns(c: Challenge, body: seq<(string, Value)>, names: seq<string>)
    modifies c`columns
    ensures forall n :: n in names ==> c.Column(n) == GetOr(body, n, old(c.Column(n)))
    ensures forall n :: n !in names ==> c.Column(n) == old(c.Column(n))
  {
    var i := 0;
    while i < |names|
      invariant 0 <= i <= |names|
      invariant forall n :: n in names[..i] ==> c.Column(n) == GetOr(body, n, old(c.Column(n)))
      invariant forall n :: n !in names[..i] ==> c.Column(n) == old(c.Column(n))
    {
      var name := names[i];
      if HasKey(body, name) {
        c.SetColumn(name, Get(body, name).value);
      }
      assert names[..i + 1] == names[..i] + [name];
      i := i + 1;
    }
    assert names[..i] == names;
  }

  /**
   * The commit of `update_challenge` succeeds: every whitelisted column the
   * body sets can hold its value, and no NOT NULL column is set to null.
   */
  predicate UpdateWritable(body: seq<(string, Value)>)
  {
    forall n :: n in UpdatableFields && HasKey(body, n) ==>
      Writable(n, GetOr(body, n, JNull)) && !(n in NotNullColumns && GetOr(body, n, JNull).JNull?)
  }

  /** Keys outside the whitelist are ignored, so they never make the commit fail. */
  lemma UnlistedKeysWritable(body: seq<(string, Value)>)
    requires forall k :: 0 <= k < |body| ==> body[k].0 !in UpdatableFields
    ensures UpdateWritable(body)
  {
  }

  /**
   * `update_challenge` on the row the id named. Each whitelisted column
   * present in a dict body takes the body's value and no other column
   * changes; the publish date is set only when the body's `is_published`
   * is truthy and there was none. Any other body raises before a column is
   * set; a value a column cannot hold fails the commit, whose rollback
   * leaves the row as it was.
   */
  method UpdateChallenge(found: Option<Challenge>, body: Value, now: int) returns (resp: Response)
    modifies (if found.Some? then {found.value} else {})`columns,
             (if found.Some? then {found.value} else {})`publishDate,
             (if found.Some? then {found.value} else {})`updatedAt
    ensures found.None? ==> resp == Response(404, "Challenge not found")
    ensures found.Some? && !(body.JObject? && UpdateWritable(body.fields)) ==>
      resp == Response(500, "Failed to update challenge")
      && found.value.columns == old(found.value.columns) && found.value.publishDate == old(found.value.publishDate)
      && found.value.updatedAt == old(found.value.updatedAt)
    ensures found.Some? && body.JObject? && UpdateWritable(body.fields) ==>
      var c := found.value;
      resp == Response(200, "Challenge updated successfully") && c.updatedAt == now
      && (forall n :: n in UpdatableFields ==> c.Column(n) == GetOr(body.fields, n, old(c.Column(n))))
      && (forall n :: n !in UpdatableFields ==> c.Column(n) == old(c.Column(n)))
      && c.publishDate == (if Truthy(GetOr(body.fields, "is_published", JNull)) && old(c.publishDate).None?
                           then Some(now) else old(c.publishDate))
  {
    if found.None? {
      return Response(404, "Challenge not found");
    }
    var c := found.value;
    if !body.JObject? || !UpdateWritable(body.fields) {
      return Response(500, "Failed to update challenge");
    }
    CopyColumns(c, body.fields, UpdatableFields);
    if Truthy(GetOr(body.fields, "is_published", JNull)) && c.publishDate.None? {
      c.publishDate := Some(now);
    }
    c.updatedAt := now;
    resp := Response(200, "Challenge updated successfully");
  }

  /** The columns `update_challenge` never writes, among them the questions and the attribution. */
  lemma ProtectedColumns()
    ensures "questions" !in UpdatableFields && "author" !in UpdatableFields && "series" !in UpdatableFields
    ensures "suggested_tools" !in UpdatableFields && "operating_system" !in UpdatableFields
  {
    QuestionsAuthorNotUpdatable();
    SeriesToolsNotUpdatable();
    SystemNotUpdatable();
  }

  lemma QuestionsAuthorNotUpdatable()
    ensures "questions" !in UpdatableFields && "author" !in UpdatableFields
  {
  }

  lemma SeriesToolsNotUpdatable()
    ensures "series" !in UpdatableFields && "suggested_tools" !in UpdatableFields
  {
  }

  lemma SystemNotUpdatable()
    ensures "operating_system" !in UpdatableFields
  {
  }

  /** `challenge.submissions.count()` over the submissions table. */
  function SubmissionCount(subs: seq<Submission>, challengeId: int): (n: nat)
    ensures n <= |subs|
    ensures n == 0 <==> forall s :: s in subs ==> s.challengeId != challengeId
  {
    if subs == [] then 0
    else (if subs[0].challengeId == challengeId then 1 else 0) + SubmissionCount(subs[1..], challengeId)
  }

  /** `Challenge.query.get(id)` over the table; ids are constant, so no state is read. */
  function ChallengeById(table: seq<Challenge>, id: int): (r: Option<Challenge>)
    ensures r.Some? ==> r.value in table && r.value.id == id
    ensures r.None? ==> forall c :: c in table ==> c.id != id
  {
    if table == [] then None
    else if table[0].id == id then Some(table[0])
    else ChallengeById(table[1..], id)
  }

  /** The table without the given row, in order. */
  function Without(table: seq<Challenge>, c: Challenge): (r: seq<Challenge>)
    ensures forall k :: 0 <= k < |r| ==> r[k] in table && r[k] != c
    ensures forall k :: 0 <= k < |table| && table[k] != c ==> table[k] in r
    ensures |r| <= |table|
  {
    if table == [] then []
    else (if table[0] == c then [] else [table[0]]) + Without(table[1..], c)
  }

  /**
   * `delete_challenge`: the row is removed only when no submission refers
   * to it; otherwise the reply names the count and the table is kept.
   */
  function DeleteChallenge(table: seq<Challenge>, id: int, subs: seq<Submission>): (r: (Response, seq<Challenge>))
    ensures r.0.status == 200 <==> ChallengeById(table, id).Some? && forall s :: s in subs ==> s.challengeId != id
    ensures r.0.status != 200 ==> r.1 == table
    ensures r.0.status == 200 ==> r.1 == Without(table, ChallengeById(table, id).value)
    ensures ChallengeById(table, id).Some? && SubmissionCount(subs, id) > 0 ==>
      r.0 == Response(400, "Cannot delete challenge with " + NatToString(SubmissionCount(subs, id))
                           + " submissions. Consider unpublishing instead.")
  {
    var found := ChallengeById(table, id);
    if found.None? then (Response(404, "Challenge not found"), table)
    else
      var count := SubmissionCount(subs, id);
      if count > 0 then
        (Response(400, "Cannot delete challenge with " + NatToString(count) + " submissions. Consider unpublishing instead."), table)
      else (Response(200, "Challenge deleted successfully"), Without(table, found.value))
  }

  /** The attempt counters of a category's challenges, summed in order. */
  function Attempts(cs: seq<Challenge>): int
    reads set c | c in cs
  {
    if cs == [] then 0 else Attempts(cs[..|cs| - 1]) + cs[|cs| - 1].totalAttempts
  }

  function Successes(cs: seq<Challenge>): int
    reads set c | c in cs
  {
    if cs == [] then 0 else Successes(cs[..|cs| - 1]) + cs[|cs| - 1].successfulAttempts
  }

  /** `calculate_category_success_rate`, before rounding: 0 without attempts, else the percentage. */
  method CategorySuccessRate(cs: seq<Challenge>) returns (rate: real)
    ensures Attempts(cs) == 0 ==> rate == 0.0
    ensures Attempts(cs) != 0 ==> rate == (Successes(cs) as real / Attempts(cs) as real) * 100.0
  {
    var total, successful := 0, 0;
    var i := 0;
    while i < |cs|
      invariant 0 <= i <= |cs|
      invariant total == Attempts(cs[..i]) && successful == Successes(cs[..i])
    {
      assert cs[..i + 1][..i] == cs[..i];
      total := total + cs[i].totalAttempts;
      successful := successful + cs[i].successfulAttempts;
      i := i + 1;
    }
    assert cs[..i] == cs;
    if total == 0 {
      return 0.0;
    }
    rate := (successful as real / total as real) * 100.0;
  }

  /** Counters that never exceed each other keep the sums ordered, so the rate lies in [0, 100]. */
  lemma {:induction false} SumsOrdered(cs: seq<Challenge>)
    requires forall c :: c in cs ==> 0 <= c.successfulAttempts <= c.totalAttempts
    ensures 0 <= Successes(cs) <= Attempts(cs)
  {
    if cs != [] {
      var init := cs[..|cs| - 1];
      assert forall c :: c in init ==> c in cs;
      SumsOrdered(init);
    }
  }

  /** The category rate is a percentage when every challenge's counters are consistent. */
  lemma CategoryRateBounds(cs: seq<Challenge>)
    requires forall c :: c in cs ==> 0 <= c.successfulAttempts <= c.totalAttempts
    requires Attempts(cs) != 0
    ensures 0.0 <= (Successes(cs) as real / Attempts(cs) as real) * 100.0 <= 100.0
  {
    SumsOrdered(cs);
  }
}

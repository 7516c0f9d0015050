/**
 * The account endpoints: registration, login, profile read and update,
 * password change and token validation. The users table is a sequence of
 * rows; the password hash and its check, and the JWT identity, are
 * parameters.
 */
module AuthRoutes {
  import opened Wrappers
  import opened Json
  import opened Strings
  import opened UserModel

  const MinUsernameLength := 3
  const MinPasswordLength := 6

  /** The fields `register` and `update_profile` take from a valid request. */
  datatype Registration = Registration(username: string, email: string, password: string, firstName: string, lastName: string)

  datatype RegisterOutcome = RegisterRejected(response: Response) | RegisterAccepted(reg: Registration)

  /** `data.get(key, '').strip()`: `None` for a value that is not a string. */
  function StrippedOr(body: seq<(string, Value)>, key: string): Option<string>
  {
    var v := GetOr(body, key, JStr(""));
    if v.JStr? then Some(Trim(v.s)) else None
  }

  const RegistrationFailed := Response(500, "Registration failed")

  /**
   * `register`, up to the insertion: the required fields, then the
   * username and password lengths, then the two uniqueness checks.
   */
  function Register(body: Value, users: seq<User>): (o: RegisterOutcome)
    reads set u | u in users
    ensures o.RegisterAccepted? ==>
      |o.reg.username| >= MinUsernameLength && |o.reg.password| >= MinPasswordLength
      && ByUsername(users, o.reg.username).None? && ByEmail(users, o.reg.email).None?
  {
    if !body.JObject? then RegisterRejected(RegistrationFailed)
    else
      var missing := FirstMissing(body.fields, ["username", "email", "password"]);
      if missing.Some? then RegisterRejected(Response(400, missing.value + " is required"))
      else
        var rawName := GetOr(body.fields, "username", JNull);
        var rawEmail := GetOr(body.fields, "email", JNull);
        var password := GetOr(body.fields, "password", JNull);
        if !rawName.JStr? || !rawEmail.JStr? then RegisterRejected(RegistrationFailed)
        else
          RegisterChecked(Trim(rawName.s), Lower(Trim(rawEmail.s)), password, body.fields, users)
  }

  /** The checks of a registration once the username and e-mail are normalised. */
  function RegisterChecked(username: string, email: string, password: Value,
                           fields: seq<(string, Value)>, users: seq<User>): (o: RegisterOutcome)
    reads set u | u in users
    ensures o.RegisterAccepted? ==> o.reg.username == username && o.reg.email == email
    ensures o.RegisterAccepted? ==>
      |o.reg.username| >= MinUsernameLength && |o.reg.password| >= MinPasswordLength
      && ByUsername(users, o.reg.username).None? && ByEmail(users, o.reg.email).None?
  {
    if |username| < MinUsernameLength then
      RegisterRejected(Response(400, "Username must be at least 3 characters long"))
    else if PyLen(password).None? then RegisterRejected(RegistrationFailed)
    else if PyLen(password).value < MinPasswordLength then
      RegisterRejected(Response(400, "Password must be at least 6 characters long"))
    else if ByUsername(users, username).Some? then RegisterRejected(Response(409, "Username already exists"))
    else if ByEmail(users, email).Some? then RegisterRejected(Response(409, "Email already registered"))
    else if !password.JStr? then RegisterRejected(RegistrationFailed)
    else
      var first := StrippedOr(fields, "first_name");
      var last := StrippedOr(fields, "last_name");
      if first.None? || last.None? then RegisterRejected(RegistrationFailed)
      else RegisterAccepted(Registration(username, email, password.s, first.value, last.value))
  }

  /** The normalised checks pass exactly when every condition on the fields holds. */
  lemma RegisterCheckedAccepts(username: string, email: string, password: Value,
                               fields: seq<(string, Value)>, users: seq<User>)
    ensures RegisterChecked(username, email, password, fields, users).RegisterAccepted? <==>
      |username| >= MinUsernameLength && password.JStr? && |password.s| >= MinPasswordLength
      && ByUsername(users, username).None? && ByEmail(users, email).None?
      && StrippedOr(fields, "first_name").Some? && StrippedOr(fields, "last_name").Some?
  {
    if password.JStr? {
      assert PyLen(password) == Some(|password.s|);
    }
  }

  /** An accepted registration stores the stripped username and the stripped, lower-cased e-mail. */
  lemma RegisterNormalises(body: Value, users: seq<User>)
    ensures Register(body, users).RegisterAccepted? ==>
      body.JObject? && GetOr(body.fields, "username", JNull).JStr? && GetOr(body.fields, "email", JNull).JStr?
      && Register(body, users).reg.username == Trim(GetOr(body.fields, "username", JNull).s)
      && Register(body, users).reg.email == Lower(Trim(GetOr(body.fields, "email", JNull).s))
  {
  }

  /**
   * A registration is accepted exactly when the three required fields are
   * strings, the stripped username has 3 characters or more, the password
   * 6 or more, neither the username nor the normalised e-mail is taken,
   * and the optional names are strings.
   */
  lemma RegisterAccepts(body: Value, users: seq<User>)
    ensures Register(body, users).RegisterAccepted? <==>
      body.JObject? &&
      var name := GetOr(body.fields, "username", JNull);
      var email := GetOr(body.fields, "email", JNull);
      var password := GetOr(body.fields, "password", JNull);
      name.JStr? && email.JStr? && password.JStr? && email.s != ""
      && |Trim(name.s)| >= MinUsernameLength && |password.s| >= MinPasswordLength
      && ByUsername(users, Trim(name.s)).None? && ByEmail(users, Lower(Trim(email.s))).None?
      && StrippedOr(body.fields, "first_name").Some? && StrippedOr(body.fields, "last_name").Some?
  {
    if body.JObject? {
      RequiredPresent(body.fields, "username", "email", "password");
      var name := GetOr(body.fields, "username", JNull);
      var email := GetOr(body.fields, "email", JNull);
      var password := GetOr(body.fields, "password", JNull);
      if name.JStr? && email.JStr? {
        RegisterCheckedAccepts(Trim(name.s), Lower(Trim(email.s)), password, body.fields, users);
      }
    }
  }

  /** No field of three is missing exactly when all three are truthy. */
  lemma RequiredPresent(body: seq<(string, Value)>, a: string, b: string, c: string)
    ensures FirstMissing(body, [a, b, c]).None? <==>
      Truthy(GetOr(body, a, JNull)) && Truthy(GetOr(body, b, JNull)) && Truthy(GetOr(body, c, JNull))
  {
    assert [a, b, c][1..] == [b, c] && [b, c][1..] == [c] && [c][1..] == [];
  }

  /** A short username or password is reported before any uniqueness check, whoever holds the name. */
  lemma LengthsBeforeDuplicates(body: Value, users: seq<User>, others: seq<User>)
    requires body.JObject? && FirstMissing(body.fields, ["username", "email", "password"]).None?
    requires GetOr(body.fields, "username", JNull).JStr? && GetOr(body.fields, "email", JNull).JStr?
    requires |Trim(GetOr(body.fields, "username", JNull).s)| < MinUsernameLength
    ensures Register(body, users) == Register(body, others)
    ensures Register(body, users) == RegisterRejected(Response(400, "Username must be at least 3 characters long"))
  {
  }

  /** A missing required field is named in the reply, the first one in the order username, email, password. */
  lemma RegisterNamesMissing(body: Value, users: seq<User>)
    requires body.JObject? && !Truthy(GetOr(body.fields, "username", JNull))
    ensures Register(body, users) == RegisterRejected(Response(400, "username is required"))
  {
  }

  /**
   * `register` with its effect: an accepted request appends a new row with
   * the hashed password; a rejected one leaves the table as it was.
   */
  method RegisterRoute(users: seq<User>, body: Value, hash: string -> string, id: int, now: int)
    returns (resp: Response, table: seq<User>)
    ensures var o := old(Register(body, users));
      o.RegisterRejected? ==> resp == o.response && table == users
    ensures var o := old(Register(body, users));
      o.RegisterAccepted? ==>
        resp.status == 201 && |table| == |users| + 1 && table[..|users|] == users && fresh(table[|users|])
        && table[|users|].username == o.reg.username && table[|users|].email == o.reg.email
        && table[|users|].passwordHash == hash(o.reg.password)
        && !table[|users|].isAdmin && table[|users|].isActive
  {
    var outcome := Register(body, users);
    if outcome.RegisterRejected? {
      return outcome.response, users;
    }
    var user := NewRow(outcome.reg, hash, id, now);
    resp := Response(201, "User registered successfully");
    table := users + [user];
  }

  /** The row `register` inserts: the column defaults, the hashed password and the stripped names. */
  method NewRow(reg: Registration, hash: string -> string, id: int, now: int) returns (user: User)
    ensures fresh(user)
    ensures user.username == reg.username && user.email == reg.email && user.passwordHash == hash(reg.password)
    ensures !user.isAdmin && user.isActive
    ensures user.firstName == JStr(reg.firstName) && user.lastName == JStr(reg.lastName)
  {
    user := new User(id, reg.username, reg.email, hash(reg.password), now);
    user.firstName, user.lastName := JStr(reg.firstName), JStr(reg.lastName);
  }

  datatype LoginOutcome = LoginRejected(response: Response) | LoggedIn(user: User)

  const InvalidCredentials := Response(401, "Invalid email or password")

  const LoginFailed := Response(500, "Login failed")

  /**
   * `login`. `checkHash(hash, password)` is the password check of the
   * hashing library on a string; for any other password the library
   * raises (the stored hashes are all of its own format), which the route
   * answers with 500. The lookup comes first, so an unknown address is
   * refused before the password is looked at.
   */
  function Login(body: Value, users: seq<User>, checkHash: (string, string) -> bool): (o: LoginOutcome)
    reads set u | u in users
    ensures o.LoggedIn? ==> o.user in users && o.user.isActive
    ensures o.LoggedIn? ==>
      body.JObject? && GetOr(body.fields, "password", JNull).JStr?
      && checkHash(o.user.passwordHash, GetOr(body.fields, "password", JNull).s)
  {
    if !body.JObject? then LoginRejected(LoginFailed)
    else
      var rawEmail := GetOr(body.fields, "email", JNull);
      var password := GetOr(body.fields, "password", JNull);
      if !Truthy(rawEmail) || !Truthy(password) then LoginRejected(Response(400, "Email and password are required"))
      else if !rawEmail.JStr? then LoginRejected(LoginFailed)
      else
        var user := ByEmail(users, Lower(Trim(rawEmail.s)));
        if user.None? then LoginRejected(InvalidCredentials)
        else if !password.JStr? then LoginRejected(LoginFailed)
        else if !checkHash(user.value.passwordHash, password.s) then LoginRejected(InvalidCredentials)
        else if !user.value.isActive then LoginRejected(Response(403, "Account is deactivated"))
        else LoggedIn(user.value)
  }

  /**
   * A login succeeds exactly when the e-mail is a string naming an active
   * row, and the password is a non-empty string that row's hash accepts.
   */
  lemma LoginAccepts(body: Value, users: seq<User>, checkHash: (string, string) -> bool)
    ensures Login(body, users, checkHash).LoggedIn? <==>
      body.JObject? &&
      var email := GetOr(body.fields, "email", JNull);
      var password := GetOr(body.fields, "password", JNull);
      email.JStr? && email.s != "" && password.JStr? && password.s != ""
      && var found := ByEmail(users, Lower(Trim(email.s)));
      found.Some? && found.value.isActive && checkHash(found.value.passwordHash, password.s)
    ensures Login(body, users, checkHash).LoggedIn? ==>
      Login(body, users, checkHash).user == ByEmail(users, Lower(Trim(GetOr(body.fields, "email", JNull).s))).value
  {
    if body.JObject? {
      var email := GetOr(body.fields, "email", JNull);
      var password := GetOr(body.fields, "password", JNull);
      if email.JStr? && password.JStr? {
        assert Truthy(email) == (email.s != "") && Truthy(password) == (password.s != "");
      }
    }
  }

  /**
   * For a string password, an unknown address and a wrong password get the
   * same reply, and a deactivated account is reported only to someone who
   * knows its password.
   */
  lemma LoginDoesNotLeak(body: Value, users: seq<User>, checkHash: (string, string) -> bool)
    requires body.JObject? && Truthy(GetOr(body.fields, "email", JNull)) && Truthy(GetOr(body.fields, "password", JNull))
    requires GetOr(body.fields, "email", JNull).JStr? && GetOr(body.fields, "password", JNull).JStr?
    ensures var found := ByEmail(users, Lower(Trim(GetOr(body.fields, "email", JNull).s)));
      var password := GetOr(body.fields, "password", JNull).s;
      (found.None? ==> Login(body, users, checkHash) == LoginRejected(InvalidCredentials))
      && (found.Some? && !checkHash(found.value.passwordHash, password) ==>
          Login(body, users, checkHash) == LoginRejected(InvalidCredentials))
      && (Login(body, users, checkHash) == LoginRejected(Response(403, "Account is deactivated")) ==>
          found.Some? && checkHash(found.value.passwordHash, password))
  {
  }

  /**
   * A password that is not a string tells the two apart: a registered
   * address gets the 500 of the raising check, an unknown one the 401.
   */
  lemma NonStringPasswordRevealsAccount(body: Value, users: seq<User>, checkHash: (string, string) -> bool)
    requires body.JObject? && GetOr(body.fields, "email", JNull).JStr? && GetOr(body.fields, "email", JNull).s != ""
    requires Truthy(GetOr(body.fields, "password", JNull)) && !GetOr(body.fields, "password", JNull).JStr?
    ensures var found := ByEmail(users, Lower(Trim(GetOr(body.fields, "email", JNull).s)));
      Login(body, users, checkHash) == (if found.Some? then LoginRejected(LoginFailed) else LoginRejected(InvalidCredentials))
  {
  }

  /**
   * `login` with its effect: a successful login records the time on that
   * user only. `last_login` is the only column the route may write.
   */
  method LoginRoute(users: seq<User>, body: Value, checkHash: (string, string) -> bool, now: int)
    returns (resp: Response)
    modifies (set u | u in users)`lastLogin
    ensures old(Login(body, users, checkHash)).LoginRejected? ==>
      resp == old(Login(body, users, checkHash)).response
    ensures old(Login(body, users, checkHash)).LoggedIn? ==>
      resp.status == 200 && old(Login(body, users, checkHash)).user.lastLogin == Some(now)
    ensures forall u :: u in users && (old(Login(body, users, checkHash)).LoggedIn? ==> u != old(Login(body, users, checkHash)).user) ==>
      u.lastLogin == old(u.lastLogin)
  {
    var outcome := Login(body, users, checkHash);
    if outcome.LoginRejected? {
      return outcome.response;
    }
    outcome.user.lastLogin := Some(now);
    resp := Response(200, "Login successful");
  }

  /** `get_profile` and `validate_token`: the caller's row, or the reply that refuses it. */
  function GetProfile(users: seq<User>, userId: int): (r: Response)
    reads set u | u in users
    ensures r.status == 200 <==> ById(users, userId).Some?
    ensures r.status != 200 ==> r == Response(404, "User not found")
  {
    if ById(users, userId).None? then Response(404, "User not found") else Response(200, "")
  }

  function ValidateToken(users: seq<User>, userId: int): (r: Response)
    reads set u | u in users
    ensures r.status == 200 <==> ById(users, userId).Some? && ById(users, userId).value.isActive
    ensures r.status != 200 ==> r == Response(401, "Invalid token or inactive user")
  {
    var user := ById(users, userId);
    if user.None? || !user.value.isActive then Response(401, "Invalid token or inactive user") else Response(200, "")
  }

  /** The profile columns any user may overwrite; the username has its own checks. */
  const ProfileFields: seq<string> := ["first_name", "last_name", "bio", "avatar_url"]

  /** Every name `update_profile` tests with `in`, in its order. */
  const ProfileNames: seq<string> := ProfileFields + ["username"]

  const ProfileUpdated := Response(200, "Profile updated successfully")
  const ProfileFailed := Response(500, "Failed to update profile")

  /**
   * A body that is not a dict passes `update_profile` only when every one
   * of its `in` tests answers false. A test that raises (null, a number, a
   * boolean), or one that finds its name and then indexes the list or the
   * string by it, ends in the 500.
   */
  predicate MissesEveryName(body: Value)
  {
    forall k :: k in ProfileNames ==> PyIn(body, k) == Some(false)
  }

  /** The driver can bind every profile value the body carries (an absent one reads as null). */
  predicate ProfileValuesBindable(fields: seq<(string, Value)>)
  {
    forall n :: n in ProfileFields ==> Bindable(GetOr(fields, n, JNull))
  }

  /** The username `update_profile` would store: the stripped text of a string value. */
  function NewUsername(fields: seq<(string, Value)>): Option<string>
  {
    var raw := GetOr(fields, "username", JNull);
    if raw.JStr? then Some(Trim(raw.s)) else None
  }

  /**
   * The reply of `update_profile`, given the caller's row. For a dict the
   * four profile columns are copied first; then a username, when present,
   * must be a string whose stripped form is long enough; then the lookup of
   * that name autoflushes the copied columns (or, without a username, the
   * commit writes them), which fails on a value the driver cannot bind; then
   * the name must not belong to another row.
   */
  function ProfileReply(body: Value, users: seq<User>, user: User): (r: Response)
    reads set u | u in users
    ensures r.status == 200 || r.status == 400 || r.status == 409 || r == ProfileFailed
    ensures r.status == 200 && body.JObject? ==> ProfileValuesBindable(body.fields)
    ensures r.status == 200 && body.JObject? && HasKey(body.fields, "username") ==> NewUsername(body.fields).Some?
    ensures r.status == 400 ==> (body.JObject? && NewUsername(body.fields).Some?
      && |NewUsername(body.fields).value| < MinUsernameLength)
    ensures r.status == 409 ==> (body.JObject? && ProfileValuesBindable(body.fields) && NewUsername(body.fields).Some?
      && ByUsername(users, NewUsername(body.fields).value).Some?
      && ByUsername(users, NewUsername(body.fields).value).value.id != user.id)
  {
    if !body.JObject? then
      if MissesEveryName(body) then ProfileUpdated else ProfileFailed
    else if !HasKey(body.fields, "username") then
      if ProfileValuesBindable(body.fields) then ProfileUpdated else ProfileFailed
    else if NewUsername(body.fields).None? then ProfileFailed
    else
      var name := NewUsername(body.fields).value;
      if |name| < MinUsernameLength then Response(400, "Username must be at least 3 characters long")
      else if !ProfileValuesBindable(body.fields) then ProfileFailed
      else
        var holder := ByUsername(users, name);
        if holder.Some? && holder.value.id != user.id then Response(409, "Username already exists")
        else ProfileUpdated
  }

  /** `update_profile` succeeds exactly on these bodies. */
  lemma ProfileAccepts(body: Value, users: seq<User>, user: User)
    ensures ProfileReply(body, users, user).status == 200 <==>
      if body.JObject? then
        ProfileValuesBindable(body.fields)
        && (HasKey(body.fields, "username") ==>
              NewUsername(body.fields).Some? && |NewUsername(body.fields).value| >= MinUsernameLength
              && (ByUsername(users, NewUsername(body.fields).value).None?
                  || ByUsername(users, NewUsername(body.fields).value).value.id == user.id))
      else MissesEveryName(body)
  {
  }

  /** A list or dict in a profile column fails the flush or the commit, unless a short username is refused first. */
  lemma UnbindableProfileValueFails(body: Value, users: seq<User>, user: User)
    requires body.JObject? && !ProfileValuesBindable(body.fields)
    requires HasKey(body.fields, "username") ==> NewUsername(body.fields).Some? && |NewUsername(body.fields).value| >= MinUsernameLength
    ensures ProfileReply(body, users, user) == ProfileFailed
  {
  }

  /** Bodies that are not dicts: the `in` test raises, or finds a name it then cannot index, or finds none. */
  lemma NonDictBodies(users: seq<User>, user: User)
    ensures ProfileReply(JNull, users, user) == ProfileFailed
    ensures ProfileReply(JNum(3), users, user) == ProfileFailed
    ensures ProfileReply(JArray([JStr("username")]), users, user) == ProfileFailed
    ensures ProfileReply(JStr("my bio"), users, user) == ProfileFailed
    ensures ProfileReply(JArray([]), users, user) == ProfileUpdated
  {
    assert !MissesEveryName(JArray([JStr("username")])) by {
      assert ProfileNames[4] == "username";
      assert PyIn(JArray([JStr("username")]), ProfileNames[4]) == Some(true);
    }
    assert !MissesEveryName(JStr("my bio")) by {
      ContainsSelfPart("my ", "bio", "");
      assert "my " + "bio" + "" == "my bio";
      assert ProfileNames[2] == "bio";
      assert PyIn(JStr("my bio"), ProfileNames[2]) == Some(true);
    }
  }

  /** Keeping one's own username (after stripping) is allowed when the profile values can be stored. */
  lemma KeepOwnUsername(body: Value, users: seq<User>, user: User)
    requires user in users && forall u :: u in users && u.username == user.username ==> u.id == user.id
    requires body.JObject? && ProfileValuesBindable(body.fields)
    requires NewUsername(body.fields) == Some(user.username) && |user.username| >= MinUsernameLength
    ensures ProfileReply(body, users, user) == ProfileUpdated
  {
  }

  /** The profile column of the given name. */
  function ProfileField(user: User, name: string): Value
    reads user`firstName, user`lastName, user`bio, user`avatarUrl
  {
    if name == "first_name" then user.firstName
    else if name == "last_name" then user.lastName
    else if name == "bio" then user.bio
    else user.avatarUrl
  }

  /** What a profile column holds once the update commits: the stored text of the body's value when there is one, else its own value. */
  function Committed(fields: seq<(string, Value)>, name: string, current: Value): (r: Value)
    requires name in ProfileFields && ProfileValuesBindable(fields)
    ensures HasKey(fields, name) ==> ColumnText(r) == ColumnText(GetOr(fields, name, JNull)) && (r.JNull? || r.JStr?)
    ensures !HasKey(fields, name) ==> r == current
  {
    if HasKey(fields, name) then StoredText(GetOr(fields, name, JNull)) else current
  }

  /** `setattr(user, name, v)` for a profile column. */
  method SetProfileField(user: User, name: string, v: Value)
    requires name in ProfileFields
    modifies user`firstName, user`lastName, user`bio, user`avatarUrl
    ensures ProfileField(user, name) == v
    ensures forall n :: n in ProfileFields && n != name ==> ProfileField(user, n) == old(ProfileField(user, n))
  {
    if name == "first_name" { user.firstName := v; }
    else if name == "last_name" { user.lastName := v; }
    else if name == "bio" { user.bio := v; }
    else { user.avatarUrl := v; }
  }

  /** The copy loop of `update_profile`, as committed: each profile column present in the body takes the stored form of the body's value. */
  method CopyProfileFields(user: User, fields: seq<(string, Value)>)
    requires ProfileValuesBindable(fields)
    modifies user`firstName, user`lastName, user`bio, user`avatarUrl
    ensures forall n :: n in ProfileFields ==> ProfileField(user, n) == Committed(fields, n, old(ProfileField(user, n)))
  {
    var i := 0;
    while i < |ProfileFields|
      invariant 0 <= i <= |ProfileFields|
      invariant forall k :: 0 <= k < i ==>
        ProfileField(user, ProfileFields[k]) == Committed(fields, ProfileFields[k], old(ProfileField(user, ProfileFields[k])))
      invariant forall k :: i <= k < |ProfileFields| ==>
        ProfileField(user, ProfileFields[k]) == old(ProfileField(user, ProfileFields[k]))
    {
      var name := ProfileFields[i];
      if HasKey(fields, name) {
        SetProfileField(user, name, StoredText(GetOr(fields, name, JNull)));
      }
      i := i + 1;
    }
  }

  /**
   * `update_profile`, stated on the row as stored once the request ends.
   * The reply is `ProfileReply`. Only a 200 commits: the profile columns of
   * a dict body, the stripped username when one is given, and the update
   * time. Every refusal leaves the row as it was: the 500s roll back, and
   * the 400 and 409 return before the commit, so the copied columns die with
   * the request's session. The e-mail, password hash and flags never change.
   */
  method UpdateProfile(users: seq<User>, user: User, body: Value, now: int)
    returns (resp: Response)
    requires user in users
    modifies user`firstName, user`lastName, user`bio, user`avatarUrl, user`username, user`updatedAt
    ensures resp == old(ProfileReply(body, users, user))
    ensures resp.status == 200 && body.JObject? ==>
      ProfileValuesBindable(body.fields)
      && forall n :: n in ProfileFields ==> ProfileField(user, n) == Committed(body.fields, n, old(ProfileField(user, n)))
    ensures !(resp.status == 200 && body.JObject?) ==>
      forall n :: n in ProfileFields ==> ProfileField(user, n) == old(ProfileField(user, n))
    ensures resp.status == 200 && body.JObject? && HasKey(body.fields, "username") ==>
      NewUsername(body.fields) == Some(user.username)
    ensures !(resp.status == 200 && body.JObject? && HasKey(body.fields, "username")) ==> user.username == old(user.username)
    ensures user.updatedAt == if resp.status == 200 then now else old(user.updatedAt)
  {
    resp := ProfileReply(body, users, user);
    if resp.status == 200 {
      ApplyProfile(user, body, now);
    }
  }

  /** The writes `update_profile` commits on success: the profile columns and username of a dict body, and the clock. */
  method ApplyProfile(user: User, body: Value, now: int)
    requires body.JObject? ==> ProfileValuesBindable(body.fields)
    requires body.JObject? && HasKey(body.fields, "username") ==> NewUsername(body.fields).Some?
    modifies user`firstName, user`lastName, user`bio, user`avatarUrl, user`username, user`updatedAt
    ensures body.JObject? ==>
      forall n :: n in ProfileFields ==> ProfileField(user, n) == Committed(body.fields, n, old(ProfileField(user, n)))
    ensures !body.JObject? ==> forall n :: n in ProfileFields ==> ProfileField(user, n) == old(ProfileField(user, n))
    ensures body.JObject? && HasKey(body.fields, "username") ==> NewUsername(body.fields) == Some(user.username)
    ensures !(body.JObject? && HasKey(body.fields, "username")) ==> user.username == old(user.username)
    ensures user.updatedAt == now
  {
    if body.JObject? {
      CopyProfileFields(user, body.fields);
      if HasKey(body.fields, "username") {
        user.username := NewUsername(body.fields).value;
      }
    }
    user.updatedAt := now;
  }

  const ChangeFailed := Response(500, "Failed to change password")

  /**
   * The reply of `change_password`: both fields, then the current password,
   * then the new length. The hashing library raises on a current or a new
   * password that is not a string, and the route answers 500.
   */
  function ChangePassword(body: Value, currentHash: string, checkHash: (string, string) -> bool): (r: Response)
    ensures r.status == 200 ==>
      body.JObject? && GetOr(body.fields, "current_password", JNull).JStr?
      && checkHash(currentHash, GetOr(body.fields, "current_password", JNull).s)
    ensures r.status == 200 ==>
      GetOr(body.fields, "new_password", JNull).JStr? && |GetOr(body.fields, "new_password", JNull).s| >= MinPasswordLength
  {
    if !body.JObject? then ChangeFailed
    else
      var current := GetOr(body.fields, "current_password", JNull);
      var incoming := GetOr(body.fields, "new_password", JNull);
      if !Truthy(current) || !Truthy(incoming) then Response(400, "Current password and new password are required")
      else if !current.JStr? then ChangeFailed
      else if !checkHash(currentHash, current.s) then Response(401, "Current password is incorrect")
      else if PyLen(incoming).None? then ChangeFailed
      else if PyLen(incoming).value < MinPasswordLength then Response(400, "New password must be at least 6 characters long")
      else if !incoming.JStr? then ChangeFailed
      else Response(200, "Password changed successfully")
  }

  /**
   * The change succeeds exactly when the current password is a non-empty
   * string the stored hash accepts and the new one a string of 6 or more
   * characters.
   */
  lemma ChangePasswordAccepts(body: Value, currentHash: string, checkHash: (string, string) -> bool)
    ensures ChangePassword(body, currentHash, checkHash).status == 200 <==>
      body.JObject? &&
      var current := GetOr(body.fields, "current_password", JNull);
      var incoming := GetOr(body.fields, "new_password", JNull);
      current.JStr? && current.s != "" && checkHash(currentHash, current.s)
      && incoming.JStr? && |incoming.s| >= MinPasswordLength
  {
  }

  /** A wrong current password is reported even when the new one is also too short. */
  lemma WrongCurrentFirst(body: Value, currentHash: string, checkHash: (string, string) -> bool)
    requires body.JObject?
    requires Truthy(GetOr(body.fields, "current_password", JNull)) && Truthy(GetOr(body.fields, "new_password", JNull))
    requires GetOr(body.fields, "current_password", JNull).JStr?
    requires !checkHash(currentHash, GetOr(body.fields, "current_password", JNull).s)
    ensures ChangePassword(body, currentHash, checkHash) == Response(401, "Current password is incorrect")
  {
  }

  /** A current password that is not a string ends in the 500 of the raising check, before the new one is looked at. */
  lemma NonStringCurrentFails(body: Value, currentHash: string, checkHash: (string, string) -> bool)
    requires body.JObject?
    requires Truthy(GetOr(body.fields, "current_password", JNull)) && Truthy(GetOr(body.fields, "new_password", JNull))
    requires !GetOr(body.fields, "current_password", JNull).JStr?
    ensures ChangePassword(body, currentHash, checkHash) == ChangeFailed
  {
  }

  /** `change_password` with its effect: the hash changes exactly on success. */
  method ChangePasswordRoute(user: User, body: Value, checkHash: (string, string) -> bool, hash: string -> string, now: int)
    returns (resp: Response)
    modifies user`passwordHash, user`updatedAt
    ensures resp == ChangePassword(body, old(user.passwordHash), checkHash)
    ensures resp.status == 200 ==> user.passwordHash == hash(GetOr(body.fields, "new_password", JNull).s) && user.updatedAt == now
    ensures resp.status != 200 ==> user.passwordHash == old(user.passwordHash) && user.updatedAt == old(user.updatedAt)
  {
    resp := ChangePassword(body, user.passwordHash, checkHash);
    if resp.status == 200 {
      user.passwordHash := hash(GetOr(body.fields, "new_password", JNull).s);
      user.updatedAt := now;
    }
  }
}

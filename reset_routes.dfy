/**
 * The password-reset endpoints: requesting a reset link, resetting with a
 * token, and checking a token. The e-mail format regular expression, the
 * user lookup by e-mail, the password hash and the random token text are
 * parameters; the e-mail itself is never sent here.
 */
module ResetRoutes {
  import opened Wrappers
  import opened Json
  import opened Strings
  import opened PasswordResetModel
  import U = UserModel

  const SentMessage := "If an account with that email exists, a password reset link has been sent."
  const InvalidTokenMessage := "Invalid or expired reset token"
  const MinPasswordLength := 6
  const ResetFailed := Response(500, "An error occurred while resetting your password")

  /** The reply of `forgot_password`, and the user who gets a new token (if any). */
  datatype ForgotOutcome = ForgotOutcome(response: Response, issueFor: Option<int>)

  /** The stripped, lower-cased e-mail of a request body, when it has one; `None` when it is not a string. */
  function RequestEmail(body: seq<(string, Value)>): Option<string>
  {
    var e := GetOr(body, "email", JNull);
    if e.JStr? then Some(Lower(Trim(e.s))) else None
  }

  /**
   * `forgot_password`. `emailFormat` is the regular expression of the
   * route and `userByEmail` the `users` lookup.
   */
  function ForgotPassword(body: Value, emailFormat: string -> bool, userByEmail: string -> Option<int>): (o: ForgotOutcome)
    ensures o.issueFor.Some? ==> o.response == Response(200, SentMessage)
    ensures o.issueFor.Some? ==>
      (body.JObject? && RequestEmail(body.fields).Some? && emailFormat(RequestEmail(body.fields).value)
       && userByEmail(RequestEmail(body.fields).value) == o.issueFor)
  {
    if !Truthy(body) then ForgotOutcome(Response(400, "Email is required"), None)
    else if !body.JObject? then ForgotOutcome(Response(500, "An error occurred while processing your request"), None)
    else
      var e := GetOr(body.fields, "email", JNull);
      if !Truthy(e) then ForgotOutcome(Response(400, "Email is required"), None)
      else if !e.JStr? then ForgotOutcome(Response(500, "An error occurred while processing your request"), None)
      else
        var email := Lower(Trim(e.s));
        if !emailFormat(email) then ForgotOutcome(Response(400, "Invalid email format"), None)
        else ForgotOutcome(Response(200, SentMessage), userByEmail(email))
  }

  /** The reply does not reveal whether an account holds the address. */
  lemma NoEnumeration(body: Value, emailFormat: string -> bool, known: string -> Option<int>, unknown: string -> Option<int>)
    ensures ForgotPassword(body, emailFormat, known).response == ForgotPassword(body, emailFormat, unknown).response
  {
  }

  /** A reply of 200 for a well-formed address, whether an account holds it or not. */
  lemma ForgotAccepts(body: Value, emailFormat: string -> bool, userByEmail: string -> Option<int>)
    requires body.JObject? && HasKey(body.fields, "email")
    requires RequestEmail(body.fields).Some? && Truthy(GetOr(body.fields, "email", JNull))
    requires emailFormat(RequestEmail(body.fields).value)
    ensures ForgotPassword(body, emailFormat, userByEmail).response == Response(200, SentMessage)
    ensures ForgotPassword(body, emailFormat, userByEmail).issueFor == userByEmail(RequestEmail(body.fields).value)
  {
  }

  /** Surrounding spaces and upper-case letters in the address do not change whom it finds. */
  lemma EmailNormalised(pad: string, address: string)
    requires forall i :: 0 <= i < |pad| ==> IsSpace(pad[i])
    ensures Lower(Trim(pad + address + pad)) == Lower(Trim(address))
    ensures Lower(Trim(Lower(address))) == Lower(Trim(address))
  {
    TrimPadded(pad, address);
    LowerTrimCommute(address);
  }

  /** Lower-casing and stripping ASCII spaces commute, and lower-casing is idempotent. */
  lemma LowerTrimCommute(s: string)
    ensures Lower(Trim(Lower(s))) == Lower(Trim(s))
  {
    LowerKeepsSpaces(s);
    LowerIdempotent(Trim(s));
  }

  /** Lower-casing keeps the positions of spaces, so trimming before or after gives the same text. */
  lemma {:induction false} LowerKeepsSpaces(s: string)
    ensures Trim(Lower(s)) == Lower(Trim(s))
  {
    LowerTrimLeft(s);
    LowerTrimRight(TrimLeft(s));
  }

  /** Lower-casing a character neither makes nor removes a space. */
  lemma LowerCharSpace(c: char)
    ensures IsSpace(LowerChar(c)) <==> IsSpace(c)
  {
  }

  /** Lower-casing commutes with taking a slice. */
  lemma LowerSlice(s: string, i: nat, j: nat)
    requires i <= j <= |s|
    ensures Lower(s)[i..j] == Lower(s[i..j])
  {
    var a, b := Lower(s)[i..j], Lower(s[i..j]);
    assert |a| == |b|;
    forall k | 0 <= k < j - i
      ensures a[k] == b[k]
    {
      assert a[k] == Lower(s)[i + k] == LowerChar(s[i + k]);
      assert b[k] == LowerChar(s[i..j][k]);
    }
    assert a == b;
  }

  lemma {:induction false} LowerTrimLeft(s: string)
    ensures TrimLeft(Lower(s)) == Lower(TrimLeft(s))
    decreases |s|
  {
    if s != [] {
      LowerCharSpace(s[0]);
      if IsSpace(s[0]) {
        LowerSlice(s, 1, |s|);
        LowerTrimLeft(s[1..]);
      }
    }
  }

  lemma {:induction false} LowerTrimRight(s: string)
    ensures TrimRight(Lower(s)) == Lower(TrimRight(s))
    decreases |s|
  {
    if s != [] {
      var n := |s| - 1;
      var low := Lower(s);
      assert low[n] == LowerChar(s[n]);
      LowerCharSpace(s[n]);
      if IsSpace(s[n]) {
        LowerSlice(s, 0, n);
        LowerTrimRight(s[..n]);
        calc {
          TrimRight(low);
          TrimRight(low[..n]);
          TrimRight(Lower(s[..n]));
          Lower(TrimRight(s[..n]));
          Lower(TrimRight(s));
        }
      } else {
        assert TrimRight(low) == low;
        assert TrimRight(s) == s;
      }
    }
  }

  /** What `reset_password` makes of its request body before it looks at the token table. */
  datatype ResetRequest = Rejected(response: Response) | Accepted(token: Value, password: Value)

  /**
   * The checks of `reset_password`, in order: a body, a token, a new
   * password, a confirmation, the two equal, then a length of at least 6.
   */
  function ParseResetRequest(body: Value): (r: ResetRequest)
    ensures r.Rejected? ==> r.response.status == 400 || r.response.status == 500
  {
    if !Truthy(body) then Rejected(Response(400, "Request data is required"))
    else if !body.JObject? then Rejected(ResetFailed)
    else
      var token := GetOr(body.fields, "token", JNull);
      var password := GetOr(body.fields, "new_password", JNull);
      var confirmation := GetOr(body.fields, "confirm_password", JNull);
      if !Truthy(token) then Rejected(Response(400, "Reset token is required"))
      else if !Truthy(password) then Rejected(Response(400, "New password is required"))
      else if !Truthy(confirmation) then Rejected(Response(400, "Password confirmation is required"))
      else if password != confirmation then Rejected(Response(400, "Passwords do not match"))
      else if PyLen(password).None? then Rejected(ResetFailed)
      else if PyLen(password).value < MinPasswordLength then
        Rejected(Response(400, "Password must be at least 6 characters long"))
      else Accepted(token, password)
  }

  /** A request passes the checks exactly when it has a token and two equal passwords of length 6 or more. */
  lemma ResetRequestAccepts(body: Value)
    ensures ParseResetRequest(body).Accepted? <==>
      body.JObject?
      && Truthy(GetOr(body.fields, "token", JNull))
      && Truthy(GetOr(body.fields, "new_password", JNull))
      && GetOr(body.fields, "new_password", JNull) == GetOr(body.fields, "confirm_password", JNull)
      && PyLen(GetOr(body.fields, "new_password", JNull)).Some?
      && PyLen(GetOr(body.fields, "new_password", JNull)).value >= MinPasswordLength
    ensures ParseResetRequest(body).Accepted? ==>
      ParseResetRequest(body).token == GetOr(body.fields, "token", JNull)
      && ParseResetRequest(body).password == GetOr(body.fields, "new_password", JNull)
  {
  }

  /** Mismatched passwords are reported before a short one: the order of the checks. */
  lemma MismatchBeforeLength(body: Value)
    requires body.JObject?
    requires Truthy(GetOr(body.fields, "token", JNull)) && Truthy(GetOr(body.fields, "new_password", JNull))
    requires Truthy(GetOr(body.fields, "confirm_password", JNull))
    requires GetOr(body.fields, "new_password", JNull) != GetOr(body.fields, "confirm_password", JNull)
    ensures ParseResetRequest(body) == Rejected(Response(400, "Passwords do not match"))
  {
  }

  /**
   * How a token value is compared with the text `token` column: a string
   * as itself, an integer or a boolean as the decimal text SQLite's column
   * affinity turns it into, `null` as a value equal to no row; a list or an
   * object cannot be bound and the query raises.
   */
  datatype TokenKey = KeyText(text: string) | KeyNone | KeyUnbindable

  function TokenKeyOf(v: Value): (k: TokenKey)
    ensures v.JStr? ==> k == KeyText(v.s)
    ensures k.KeyUnbindable? <==> v.JArray? || v.JObject?
  {
    if v.JNull? then KeyNone
    else if ColumnText(v).Some? then KeyText(ColumnText(v).value)
    else KeyUnbindable
  }

  /** The row `reset_password` would use, read before anything changes. */
  function ValidRow(store: ResetStore, token: Value, now: int): (r: Option<PasswordReset>)
    reads store, store.rows
    ensures r.Some? ==> r.value in store.rows && r.value.IsValid(now) && TokenKeyOf(token) == KeyText(r.value.token)
    ensures TokenKeyOf(token).KeyText? ==> r == store.FindValidToken(TokenKeyOf(token).text, now)
  {
    var key := TokenKeyOf(token);
    if key.KeyText? then store.FindValidToken(key.text, now) else None
  }

  /**
   * The reply of `reset_password`, given the token row found and whether
   * its user exists: an unbindable token and a password the hash function
   * refuses (anything but a string) raise and are answered with 500.
   */
  function ResetReply(req: ResetRequest, row: Option<PasswordReset>, userExists: bool): (resp: Response)
    ensures req.Rejected? ==> resp == req.response
    ensures req.Accepted? ==>
      (resp.status == 200 <==>
        !TokenKeyOf(req.token).KeyUnbindable? && row.Some? && userExists && req.password.JStr?)
    ensures req.Accepted? && TokenKeyOf(req.token).KeyUnbindable? ==> resp == ResetFailed
    ensures req.Accepted? && !TokenKeyOf(req.token).KeyUnbindable? && row.None? ==>
      resp == Response(400, InvalidTokenMessage)
  {
    if req.Rejected? then req.response
    else if TokenKeyOf(req.token).KeyUnbindable? then ResetFailed
    else if row.None? then Response(400, InvalidTokenMessage)
    else if !userExists then Response(404, "User not found")
    else if !req.password.JStr? then ResetFailed
    else Response(200, "Password has been reset successfully. You can now log in with your new password.")
  }

  /**
   * A list of six or more items given as both passwords passes every check
   * of the form, and then fails at the hash: 500 even with a valid token.
   */
  lemma ListPasswordFails(body: Value, row: Option<PasswordReset>, userExists: bool)
    requires body.JObject? && Truthy(GetOr(body.fields, "token", JNull))
    requires GetOr(body.fields, "new_password", JNull).JArray?
    requires |GetOr(body.fields, "new_password", JNull).items| >= MinPasswordLength
    requires GetOr(body.fields, "confirm_password", JNull) == GetOr(body.fields, "new_password", JNull)
    ensures ParseResetRequest(body).Accepted?
    ensures ResetReply(ParseResetRequest(body), row, userExists).status != 200
    ensures !TokenKeyOf(GetOr(body.fields, "token", JNull)).KeyUnbindable? && row.Some? && userExists ==>
      ResetReply(ParseResetRequest(body), row, userExists) == ResetFailed
  {
    var password := GetOr(body.fields, "new_password", JNull);
    assert PyLen(password) == Some(|password.items|);
  }

  /**
   * `reset_password`. On success the user's hash is replaced, the update
   * time set and the token spent, so the same token never resets again;
   * no other row and no other user changes, and on failure nothing changes.
   */
  method ResetPassword(store: ResetStore, users: map<int, U.User>, body: Value, hash: string -> string, now: int)
    returns (resp: Response)
    requires store.Valid()
    modifies (set r | r in store.rows)`used
    modifies (set u | u in users.Values)`passwordHash, (set u | u in users.Values)`updatedAt
    ensures var req := ParseResetRequest(body);
      var row := old(ValidRow(store, if req.Accepted? then req.token else JNull, now));
      resp == ResetReply(req, row, row.Some? && row.value.userId in users)
    ensures resp.status == 200 ==>
      var req := ParseResetRequest(body);
      req.Accepted? && TokenKeyOf(req.token).KeyText?
      && forall later :: store.FindValidToken(TokenKeyOf(req.token).text, later).None?
    ensures resp.status == 200 ==>
      var req := ParseResetRequest(body);
      req.Accepted? && req.password.JStr? &&
      var row := old(ValidRow(store, req.token, now));
      row.Some? && row.value.userId in users
      && users[row.value.userId].passwordHash == hash(req.password.s)
      && users[row.value.userId].updatedAt == now
      && (forall r :: r in store.rows ==> r.used == (old(r.used) || r == row.value))
      && (forall id :: id in users && users[id] != users[row.value.userId] ==>
            users[id].passwordHash == old(users[id].passwordHash) && users[id].updatedAt == old(users[id].updatedAt))
    ensures resp.status != 200 ==>
      forall r :: r in store.rows ==> r.used == old(r.used)
    ensures resp.status != 200 ==>
      forall u :: u in users.Values ==> u.passwordHash == old(u.passwordHash) && u.updatedAt == old(u.updatedAt)
    ensures store.Valid()
  {
    var req := ParseResetRequest(body);
    if req.Rejected? {
      return req.response;
    }
    if TokenKeyOf(req.token).KeyUnbindable? {
      return ResetFailed;
    }
    var row := ValidRow(store, req.token, now);
    if row.None? {
      return ResetReply(req, row, false);
    }
    var r := row.value;
    if r.userId !in users {
      return ResetReply(req, row, false);
    }
    var user := users[r.userId];
    if !req.password.JStr? {
      return ResetFailed;
    }
    user.passwordHash := hash(req.password.s);
    user.updatedAt := now;
    r.MarkAsUsed();
    resp := ResetReply(req, row, true);
    forall later ensures store.FindValidToken(TokenKeyOf(req.token).text, later).None? {
      StoreFindSpent(store, r, TokenKeyOf(req.token).text, later);
    }
  }

  /** Once the row holding a token is spent, the token is found by no later lookup. */
  lemma StoreFindSpent(store: ResetStore, r: PasswordReset, token: string, now: int)
    requires store.Valid() && r in store.rows && r.token == token && r.used
    ensures store.FindValidToken(token, now).None?
  {
  }

  /** The reply of `validate_reset_token`. */
  datatype TokenCheck = TokenCheck(status: int, valid: bool, userId: Option<int>)

  function ValidateResetToken(store: ResetStore, token: string, now: int): (c: TokenCheck)
    reads store, store.rows
    ensures !c.valid <==> store.FindValidToken(token, now).None?
    ensures c.valid ==> c.status == 200 && c.userId == Some(store.FindValidToken(token, now).value.userId)
    ensures !c.valid ==> c.status == 400 && c.userId.None?
  {
    var found := store.FindValidToken(token, now);
    if found.None? then TokenCheck(400, false, None) else TokenCheck(200, true, Some(found.value.userId))
  }

  /**
   * `forgot_password` with its effect: the route replies as `ForgotPassword`
   * says and, for a known address, issues the user a new default token.
   */
  method ForgotPasswordRoute(store: ResetStore, body: Value, emailFormat: string -> bool,
                             userByEmail: string -> Option<int>, token: string, now: int)
    returns (resp: Response)
    requires store.Valid()
    requires forall k :: 0 <= k < |store.rows| ==> store.rows[k].token != token
    modifies store, store.rows
    ensures resp == ForgotPassword(body, emailFormat, userByEmail).response
    ensures store.Valid()
    ensures ForgotPassword(body, emailFormat, userByEmail).issueFor.None? ==> store.rows == old(store.rows)
    ensures ForgotPassword(body, emailFormat, userByEmail).issueFor.Some? ==>
      |store.rows| == |old(store.rows)| + 1
      && store.UnusedOf(ForgotPassword(body, emailFormat, userByEmail).issueFor.value) == {|store.rows| - 1}
      && store.rows[|store.rows| - 1].token == token && store.rows[|store.rows| - 1].IsValid(now)
  {
    var outcome := ForgotPassword(body, emailFormat, userByEmail);
    if outcome.issueFor.Some? {
      var r := store.CreateResetToken(outcome.issueFor.value, token, now, DefaultExpiryHours);
    }
    resp := outcome.response;
  }
}

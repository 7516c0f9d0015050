/**
 * The `password_resets` table: single-use tokens that expire a fixed number
 * of hours after they are issued. Times are integer seconds supplied by the
 * caller; the random token text is a parameter.
 */
module PasswordResetModel {
  import opened Wrappers

  const DefaultExpiryHours := 24
  const SecondsPerHour := 3600

  class PasswordReset {
    const userId: int
    const token: string
    const expiresAt: int
    const createdAt: int
    var used: bool

    /** `PasswordReset(user_id, expires_in_hours)`: unused, expiring that many hours from now. */
    constructor (userId: int, token: string, now: int, expiresInHours: int)
      ensures this.userId == userId && this.token == token && createdAt == now
      ensures expiresAt == now + expiresInHours * SecondsPerHour && !used
    {
      this.userId, this.token, createdAt := userId, token, now;
      expiresAt := now + expiresInHours * SecondsPerHour;
      used := false;
    }

    /** `is_valid`: not used and not yet expired (the expiry instant itself is too late). */
    predicate IsValid(now: int)
      reads this
    {
      !used && now < expiresAt
    }

    /** `mark_as_used`: the token can never be valid again. */
    method MarkAsUsed()
      modifies this`used
      ensures used
      ensures forall now :: !IsValid(now)
    {
      used := true;
    }
  }

  /** A fresh default token is valid for exactly 24 hours: at every instant before that, and at none after. */
  lemma FreshTokenWindow(r: PasswordReset, now: int, later: int)
    requires !r.used && r.expiresAt == now + DefaultExpiryHours * SecondsPerHour
    ensures r.IsValid(later) <==> later < now + 86400
  {
  }

  /** The table, in insertion order. */
  class ResetStore {
    var rows: seq<PasswordReset>

    /** Distinct row objects holding distinct token texts (the `unique` constraint on `token`). */
    predicate Valid()
      reads this, rows
    {
      (forall i, j :: 0 <= i < j < |rows| ==> rows[i] != rows[j] && rows[i].token != rows[j].token)
    }

    constructor ()
      ensures rows == [] && Valid()
    {
      rows := [];
    }

    /** The unused tokens of one user, by position. */
    function UnusedOf(userId: int): set<nat>
      reads this, rows
    {
      set k: nat | k < |rows| && rows[k].userId == userId && !rows[k].used
    }

    /**
     * `find_valid_token`: the row holding `token`, provided it is valid now.
     * `None` as well when no row holds it.
     */
    function FindValidToken(token: string, now: int): (r: Option<PasswordReset>)
      reads this, rows
      ensures r.Some? ==> r.value in rows && r.value.token == token && r.value.IsValid(now)
      ensures Valid() && r.None? ==> forall k :: 0 <= k < |rows| && rows[k].token == token ==> !rows[k].IsValid(now)
    {
      FindFrom(token, now, 0)
    }

    /** The first row at or after `k` holding `token`, if it is valid. */
    function FindFrom(token: string, now: int, k: nat): (r: Option<PasswordReset>)
      reads this, rows
      requires k <= |rows|
      ensures r.Some? ==> r.value in rows && r.value.token == token && r.value.IsValid(now)
      ensures Valid() && r.None? ==> forall j :: k <= j < |rows| && rows[j].token == token ==> !rows[j].IsValid(now)
      decreases |rows| - k
    {
      if k == |rows| then None
      else if rows[k].token == token then (if rows[k].IsValid(now) then Some(rows[k]) else None)
      else FindFrom(token, now, k + 1)
    }

    /**
     * `create_reset_token`: every unused token of the user is marked used,
     * then a new unused one is appended. `token` is the freshly drawn text,
     * which the unique constraint requires to be new.
     */
    method CreateResetToken(userId: int, token: string, now: int, expiresInHours: int) returns (r: PasswordReset)
      requires Valid()
      requires forall k :: 0 <= k < |rows| ==> rows[k].token != token
      modifies this, rows
      ensures fresh(r) && rows == old(rows) + [r]
      ensures r.userId == userId && r.token == token && !r.used && r.expiresAt == now + expiresInHours * SecondsPerHour
      ensures forall k :: 0 <= k < |old(rows)| ==>
        rows[k].used == (old(rows[k].used) || rows[k].userId == userId)
      ensures UnusedOf(userId) == {|rows| - 1}
      ensures forall u :: u != userId ==> UnusedOf(u) == old(UnusedOf(u))
      ensures Valid()
    {
      var i := 0;
      while i < |rows|
        invariant 0 <= i <= |rows| && rows == old(rows)
        invariant forall k :: 0 <= k < i ==> rows[k].used == (old(rows[k].used) || rows[k].userId == userId)
        invariant forall k :: i <= k < |rows| ==> rows[k].used == old(rows[k].used)
      {
        if rows[i].userId == userId && !rows[i].used {
          rows[i].used := true;
        }
        i := i + 1;
      }
      r := new PasswordReset(userId, token, now, expiresInHours);
      rows := rows + [r];
    }
  }
}

/**
 * The `users` row: profile fields, status flags and the score statistics,
 * recomputed from the user's submissions and turned into leaderboard ranks.
 * Timestamps are integers supplied by the caller.
 */
module UserModel {
  import opened Wrappers
  import opened Json

  /** The columns of a `submissions` row that statistics and guards read. */
  datatype Submission = Submission(userId: int, challengeId: int, isCorrect: bool, pointsAwarded: Option<int>)

  /** The correct submissions, in order. */
  function Correct(subs: seq<Submission>): (r: seq<Submission>)
    ensures |r| <= |subs|
    ensures forall s :: s in r <==> s in subs && s.isCorrect
  {
    if subs == [] then []
    else
      var last := subs[|subs| - 1];
      assert subs == subs[..|subs| - 1] + [last];
      Correct(subs[..|subs| - 1]) + (if last.isCorrect then [last] else [])
  }

  /** `sum(s.points_awarded for s in completed if s.points_awarded)`: `None` and 0 add nothing. */
  function Score(subs: seq<Submission>): int
  {
    if subs == [] then 0
    else
      var last := subs[|subs| - 1];
      Score(subs[..|subs| - 1]) + (if last.pointsAwarded.Some? && last.pointsAwarded.value != 0 then last.pointsAwarded.value else 0)
  }

  lemma {:induction false} CorrectAppend(a: seq<Submission>, b: seq<Submission>)
    ensures Correct(a + b) == Correct(a) + Correct(b)
    ensures Score(a + b) == Score(a) + Score(b)
  {
    if b != [] {
      var b' := b[..|b| - 1];
      assert (a + b)[..|a + b| - 1] == a + b';
      CorrectAppend(a, b');
    } else {
      assert a + b == a;
    }
  }

  /**
   * A new correct submission raises the completed count by one and the score
   * by its points; a wrong one changes neither.
   */
  lemma StatsAfterSubmission(subs: seq<Submission>, s: Submission)
    ensures |Correct(subs + [s])| == |Correct(subs)| + (if s.isCorrect then 1 else 0)
    ensures Score(Correct(subs + [s])) ==
      Score(Correct(subs)) + (if s.isCorrect then s.pointsAwarded.GetOr(0) else 0)
  {
    CorrectAppend(subs, [s]);
    CorrectAppend(Correct(subs), Correct([s]));
    assert Correct([s]) == [] + (if s.isCorrect then [s] else []);
    if s.isCorrect {
      assert Score([s]) == Score([]) + (if s.pointsAwarded.Some? && s.pointsAwarded.value != 0 then s.pointsAwarded.value else 0);
    }
  }

  /** With non-negative awards the score is non-negative. */
  lemma {:induction false} ScoreNonNegative(subs: seq<Submission>)
    requires forall s :: s in subs && s.pointsAwarded.Some? ==> s.pointsAwarded.value >= 0
    ensures Score(subs) >= 0
  {
    if subs != [] {
      var init := subs[..|subs| - 1];
      assert forall s :: s in init ==> s in subs;
      ScoreNonNegative(init);
    }
  }

  /** The keys every `to_dict` carries, in order. */
  const PublicKeys: seq<string> := ["id", "username", "email", "first_name", "last_name", "bio", "avatar_url",
                                   "is_verified", "created_at", "last_login", "total_score",
                                   "challenges_completed", "rank_position"]

  /** The keys `to_dict(include_sensitive=True)` adds at the end. */
  const SensitiveKeys: seq<string> := ["is_admin", "is_active", "updated_at"]

  function OptNum(n: Option<int>): Value
  {
    if n.Some? then JNum(n.value) else JNull
  }

  class User {
    const id: int
    var username: string
    var email: string
    var passwordHash: string
    var firstName: Value
    var lastName: Value
    var bio: Value
    var avatarUrl: Value
    var isActive: bool
    var isAdmin: bool
    var isVerified: bool
    var createdAt: int
    var updatedAt: int
    var lastLogin: Option<int>
    var totalScore: int
    var challengesCompleted: int
    var rankPosition: Option<int>

    /** A new row with the column defaults: active, not admin, not verified, no score, no rank. */
    constructor (id: int, username: string, email: string, passwordHash: string, now: int)
      ensures this.id == id && this.username == username && this.email == email && this.passwordHash == passwordHash
      ensures isActive && !isAdmin && !isVerified
      ensures totalScore == 0 && challengesCompleted == 0 && rankPosition.None? && lastLogin.None?
      ensures firstName == JNull && lastName == JNull && bio == JNull && avatarUrl == JNull
      ensures createdAt == now && updatedAt == now
    {
      this.id, this.username, this.email, this.passwordHash := id, username, email, passwordHash;
      firstName, lastName, bio, avatarUrl := JNull, JNull, JNull, JNull;
      isActive, isAdmin, isVerified := true, false, false;
      createdAt, updatedAt, lastLogin := now, now, None;
      totalScore, challengesCompleted, rankPosition := 0, 0, None;
    }

    /**
     * The value `to_dict` stores under a key. The e-mail is withheld (`None`)
     * unless sensitive fields are asked for; timestamps are given as numbers,
     * the ISO-8601 text `isoformat()` would print is not modelled.
     */
    function Entry(key: string, includeSensitive: bool): Value
      reads this
    {
      if key == "id" then JNum(id)
      else if key == "username" then JStr(username)
      else if key == "email" then (if includeSensitive then JStr(email) else JNull)
      else if key == "first_name" then firstName
      else if key == "last_name" then lastName
      else if key == "bio" then bio
      else if key == "avatar_url" then avatarUrl
      else if key == "is_verified" then JBool(isVerified)
      else if key == "created_at" then JNum(createdAt)
      else if key == "last_login" then OptNum(lastLogin)
      else if key == "total_score" then JNum(totalScore)
      else if key == "challenges_completed" then JNum(challengesCompleted)
      else if key == "rank_position" then OptNum(rankPosition)
      else if key == "is_admin" then JBool(isAdmin)
      else if key == "is_active" then JBool(isActive)
      else if key == "updated_at" then JNum(updatedAt)
      else JNull
    }

    /** `to_dict(include_sensitive)`: the public keys in order, then the sensitive ones when asked for, each with its `Entry`. */
    function ToDict(includeSensitive: bool): (d: seq<(string, Value)>)
      reads this
      ensures Keys(d) == DictKeys(includeSensitive)
      ensures forall i :: 0 <= i < |d| ==> d[i].1 == Entry(d[i].0, includeSensitive)
    {
      var keys := DictKeys(includeSensitive);
      seq(|keys|, i requires 0 <= i < |keys| reads this => (keys[i], Entry(keys[i], includeSensitive)))
    }

    /** `update_stats`: the completed count and the score, from this user's submissions. */
    method UpdateStats(submissions: seq<Submission>)
      modifies this`challengesCompleted, this`totalScore
      ensures challengesCompleted == |Correct(submissions)|
      ensures totalScore == Score(Correct(submissions))
    {
      var completed := Correct(submissions);
      challengesCompleted := |completed|;
      totalScore := Score(completed);
    }
  }

  /** The keys of `to_dict(include_sensitive)`, in order. */
  function DictKeys(includeSensitive: bool): seq<string>
  {
    PublicKeys + (if includeSensitive then SensitiveKeys else [])
  }

  /** Looking a key of the dict up gives its `Entry`. */
  lemma ToDictGet(u: User, includeSensitive: bool, key: string)
    requires key in DictKeys(includeSensitive)
    ensures Get(u.ToDict(includeSensitive), key) == Some(u.Entry(key, includeSensitive))
  {
    KeysHasKey(u.ToDict(includeSensitive), key);
    GetUniform(u.ToDict(includeSensitive), key, u.Entry(key, includeSensitive));
  }

  lemma HashNotListed()
    ensures "password_hash" !in PublicKeys && "password_hash" !in SensitiveKeys
  {
  }

  /** The dict never carries the password hash, and carries the e-mail only when sensitive fields are asked for. */
  lemma ToDictHidesSecrets(u: User, includeSensitive: bool)
    ensures !HasKey(u.ToDict(includeSensitive), "password_hash")
    ensures Get(u.ToDict(includeSensitive), "email") == Some(if includeSensitive then JStr(u.email) else JNull)
  {
    KeysHasKey(u.ToDict(includeSensitive), "password_hash");
    HashNotListed();
    assert DictKeys(includeSensitive)[2] == "email";
    ToDictGet(u, includeSensitive, "email");
  }

  /** The admin flag, the activity flag and `updated_at` appear exactly when sensitive fields are asked for. */
  lemma ToDictSensitiveKeys(u: User, includeSensitive: bool, k: string)
    requires k in SensitiveKeys
    ensures HasKey(u.ToDict(includeSensitive), k) <==> includeSensitive
  {
    KeysHasKey(u.ToDict(includeSensitive), k);
  }

  /** The statistics are published as they are stored. */
  lemma ToDictStats(u: User, includeSensitive: bool)
    ensures Get(u.ToDict(includeSensitive), "username") == Some(JStr(u.username))
    ensures Get(u.ToDict(includeSensitive), "total_score") == Some(JNum(u.totalScore))
    ensures Get(u.ToDict(includeSensitive), "challenges_completed") == Some(JNum(u.challengesCompleted))
    ensures Get(u.ToDict(includeSensitive), "rank_position") == Some(OptNum(u.rankPosition))
  {
    var keys := DictKeys(includeSensitive);
    assert keys[1] == "username" && keys[10] == "total_score";
    assert keys[11] == "challenges_completed" && keys[12] == "rank_position";
    ToDictGet(u, includeSensitive, "username");
    ToDictGet(u, includeSensitive, "total_score");
    ToDictGet(u, includeSensitive, "challenges_completed");
    ToDictGet(u, includeSensitive, "rank_position");
  }

  /** `User.query.filter_by(email=email).first()` over the table. */
  function ByEmail(users: seq<User>, email: string): (r: Option<User>)
    reads set u | u in users
    ensures r.Some? ==> r.value in users && r.value.email == email
    ensures r.None? ==> forall u :: u in users ==> u.email != email
  {
    if users == [] then None
    else if users[0].email == email then Some(users[0])
    else ByEmail(users[1..], email)
  }

  /** `User.query.filter_by(username=name).first()` over the table. */
  function ByUsername(users: seq<User>, name: string): (r: Option<User>)
    reads set u | u in users
    ensures r.Some? ==> r.value in users && r.value.username == name
    ensures r.None? ==> forall u :: u in users ==> u.username != name
  {
    if users == [] then None
    else if users[0].username == name then Some(users[0])
    else ByUsername(users[1..], name)
  }

  /** `User.query.get(id)` over the table. */
  function ById(users: seq<User>, id: int): (r: Option<User>)
    reads set u | u in users
    ensures r.Some? ==> r.value in users && r.value.id == id
    ensures r.None? ==> forall u :: u in users ==> u.id != id
  {
    if users == [] then None
    else if users[0].id == id then Some(users[0])
    else ById(users[1..], id)
  }

  /** `User.query.filter(User.total_score > 0).order_by(User.total_score.desc())` over the table `users`. */
  predicate IsRankingQuery(users: seq<User>, ordered: seq<User>)
    reads set u | u in users
  {
    (forall i :: 0 <= i < |ordered| ==> ordered[i] in users && ordered[i].totalScore > 0)
    && (forall i :: 0 <= i < |users| && users[i].totalScore > 0 ==> users[i] in ordered)
    && (forall i, j :: 0 <= i < j < |ordered| ==> ordered[i] != ordered[j])
    && (forall i, j :: 0 <= i < j < |ordered| ==> ordered[i].totalScore >= ordered[j].totalScore)
  }

  /** Positions in a list sorted by descending score as ranks: a strictly higher score has a smaller rank. */
  lemma RanksFollowScores(ordered: seq<User>)
    requires forall i, j :: 0 <= i < j < |ordered| ==> ordered[i].totalScore >= ordered[j].totalScore
    requires forall i :: 0 <= i < |ordered| ==> ordered[i].rankPosition == Some(i + 1)
    ensures forall u, v :: u in ordered && v in ordered && u.totalScore > v.totalScore ==>
      u.rankPosition.value < v.rankPosition.value
  {
    forall u, v | u in ordered && v in ordered && u.totalScore > v.totalScore
      ensures u.rankPosition.value < v.rankPosition.value
    {
      var a :| 0 <= a < |ordered| && ordered[a] == u;
      var b :| 0 <= b < |ordered| && ordered[b] == v;
      assert a < b;
    }
  }

  /**
   * `update_all_rankings`: the users with a positive score get ranks 1..n in
   * the order of the query; everyone else keeps the rank they had.
   */
  method UpdateAllRankings(users: seq<User>, ordered: seq<User>)
    requires IsRankingQuery(users, ordered)
    modifies set u | u in ordered :: u`rankPosition
    ensures forall i :: 0 <= i < |ordered| ==> ordered[i].rankPosition == Some(i + 1)
    ensures forall u :: u in users && u !in ordered ==> u.rankPosition == old(u.rankPosition)
    ensures forall u, v :: u in ordered && v in ordered && u.totalScore > v.totalScore ==>
      u.rankPosition.value < v.rankPosition.value
  {
    var i := 0;
    while i < |ordered|
      invariant 0 <= i <= |ordered|
      invariant forall j :: 0 <= j < i ==> ordered[j].rankPosition == Some(j + 1)
      invariant forall u :: u in users && u !in ordered ==> u.rankPosition == old(u.rankPosition)
    {
      ordered[i].rankPosition := Some(i + 1);
      i := i + 1;
    }
    RanksFollowScores(ordered);
  }
}

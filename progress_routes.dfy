/**
 * The progress endpoints: the paged global leaderboard, the activity streak
 * of `get_user_stats` and the bookmark toggle. Query results (the ordered
 * users, the rows of one page, distinct submission days) are inputs; days
 * are integer day numbers and the clock is a parameter.
 */
module ProgressRoutes {
  import opened Wrappers
  import opened Json
  import opened UserModel
  import opened ProgressModel

  const MaxPerPage := 100

  /** `min(per_page, 100)`: the requested page size, capped. */
  function PerPage(requested: int): (r: int)
    ensures r <= MaxPerPage
    ensures requested <= MaxPerPage ==> r == requested
    ensures requested > MaxPerPage ==> r == MaxPerPage
  {
    if requested < MaxPerPage then requested else MaxPerPage
  }

  /**
   * The leaderboard query over the table: active users with a positive
   * score, each once, by descending score; with a timeframe, only those
   * whose ids are among the recent scorers.
   */
  predicate IsLeaderboardQuery(users: seq<User>, ordered: seq<User>, timeframe: string, recentScorers: set<int>)
    reads set u | u in users
  {
    (forall i :: 0 <= i < |ordered| ==> ordered[i] in users && Listed(ordered[i], timeframe, recentScorers))
    && (forall i :: 0 <= i < |users| && Listed(users[i], timeframe, recentScorers) ==> users[i] in ordered)
    && (forall i, j :: 0 <= i < j < |ordered| ==> ordered[i] != ordered[j])
    && (forall i, j :: 0 <= i < j < |ordered| ==> ordered[i].totalScore >= ordered[j].totalScore)
  }

  /** The filter of the query: 'month' and 'week' also require a recent correct submission. */
  predicate Listed(u: User, timeframe: string, recentScorers: set<int>)
    reads u
  {
    u.isActive && u.totalScore > 0 && (timeframe == "month" || timeframe == "week" ==> u.id in recentScorers)
  }

  /** The rank of the `i`-th row of page `page`. */
  function RankOf(page: int, perPage: int, i: nat): int
  {
    (page - 1) * perPage + 1 + i
  }

  /**
   * The loop over `enumerate(users, start=(page - 1) * per_page + 1)`: each
   * row's public dict with its rank, and its recent points when a timeframe
   * other than 'all' was asked for (`recentPoints` is the per-user sum the
   * database returns, 0 when there is none).
   */
  method BuildLeaderboard(items: seq<User>, page: int, perPage: int, timeframe: string, recentPoints: int -> int)
    returns (board: seq<seq<(string, Value)>>)
    ensures |board| == |items|
    ensures forall i :: 0 <= i < |items| ==>
      board[i] == items[i].ToDict(false) + [("rank", JNum(RankOf(page, perPage, i)))]
                  + (if timeframe != "all" then [("recent_points", JNum(recentPoints(items[i].id)))] else [])
  {
    board := [];
    var i := 0;
    while i < |items|
      invariant 0 <= i <= |items| && |board| == i
      invariant forall k :: 0 <= k < i ==>
        board[k] == items[k].ToDict(false) + [("rank", JNum(RankOf(page, perPage, k)))]
                    + (if timeframe != "all" then [("recent_points", JNum(recentPoints(items[k].id)))] else [])
    {
      var row := items[i].ToDict(false) + [("rank", JNum(RankOf(page, perPage, i)))];
      if timeframe != "all" {
        row := row + [("recent_points", JNum(recentPoints(items[i].id)))];
      }
      board := board + [row];
      i := i + 1;
    }
  }

  /** "rank" is not one of the keys of the public user dict. */
  lemma RankKeyNew()
    ensures "rank" !in PublicKeys
  {
  }

  /** Ranks on a page are consecutive from `(page - 1) * per_page + 1`, and each row's "rank" reads back as such. */
  lemma LeaderboardRanks(board: seq<seq<(string, Value)>>, items: seq<User>, page: int, perPage: int,
                         timeframe: string, recentPoints: int -> int, i: nat)
    requires |board| == |items| && i < |items|
    requires board[i] == items[i].ToDict(false) + [("rank", JNum(RankOf(page, perPage, i)))]
      + (if timeframe != "all" then [("recent_points", JNum(recentPoints(items[i].id)))] else [])
    ensures Get(board[i], "rank") == Some(JNum((page - 1) * perPage + 1 + i))
    ensures i > 0 ==> RankOf(page, perPage, i) == RankOf(page, perPage, i - 1) + 1
  {
    var d := items[i].ToDict(false);
    var rankRow := d + [("rank", JNum(RankOf(page, perPage, i)))];
    GetAt(rankRow, |d|);
    if timeframe != "all" {
      GetAt(board[i], |d|);
    }
  }

  /** Every listed user is active with a positive score, and a higher score is listed earlier. */
  lemma LeaderboardOrder(users: seq<User>, ordered: seq<User>, timeframe: string, recentScorers: set<int>, i: nat, j: nat)
    requires IsLeaderboardQuery(users, ordered, timeframe, recentScorers)
    requires i < |ordered| && j < |ordered| && ordered[i].totalScore > ordered[j].totalScore
    ensures i < j
    ensures ordered[i].isActive && ordered[i].totalScore > 0
  {
  }

  /**
   * `calculate_activity_streak` as written: distinct submission days, most
   * recent first, are walked from today; a day is taken when it equals the
   * current day or the current day minus the streak so far, and the
   * current day becomes that day.
   */
  function StreakFrom(days: seq<int>, current: int, streak: nat): (r: nat)
    ensures streak <= r <= streak + |days|
  {
    if days == [] then streak
    else if days[0] == current || days[0] == current - streak then StreakFrom(days[1..], days[0], streak + 1)
    else streak
  }

  function ActivityStreak(days: seq<int>, today: int): nat
  {
    if days == [] then 0 else StreakFrom(days, today, 0)
  }

  /** Distinct days in descending order, as the grouped query returns them. */
  predicate StrictlyDescending(days: seq<int>)
  {
    forall i, j :: 0 <= i < j < |days| ==> days[i] > days[j]
  }

  /** The loop of `calculate_activity_streak`. */
  method CalculateActivityStreak(days: seq<int>, today: int) returns (streak: nat)
    ensures streak == ActivityStreak(days, today)
  {
    if days == [] {
      return 0;
    }
    streak := 0;
    var current := today;
    var i := 0;
    while i < |days|
      invariant 0 <= i <= |days| && streak == i
      invariant ActivityStreak(days, today) == StreakFrom(days[i..], current, streak)
    {
      var day := days[i];
      if day == current || day == current - streak {
        streak := streak + 1;
        current := day;
      } else {
        return;
      }
      i := i + 1;
    }
  }

  /** No days, or a most recent day other than today, give 0; anything else at least 1. */
  lemma StreakNeedsToday(days: seq<int>, today: int)
    ensures days == [] ==> ActivityStreak(days, today) == 0
    ensures days != [] && days[0] != today ==> ActivityStreak(days, today) == 0
    ensures days != [] && days[0] == today ==> ActivityStreak(days, today) >= 1
    ensures ActivityStreak(days, today) <= |days|
  {
  }

  /** The day before position `i`: the starting day for `i == 0`. */
  function Prev(days: seq<int>, current: int, i: nat): int
    requires i <= |days|
  {
    if i == 0 then current else days[i - 1]
  }

  /** Each day lies before the one preceding it (the first: before `current`). */
  predicate Below(days: seq<int>, current: int)
  {
    forall i :: 0 <= i < |days| ==> days[i] < Prev(days, current, i)
  }

  lemma DescendingBelow(days: seq<int>)
    requires StrictlyDescending(days) && days != []
    ensures Below(days[1..], days[0])
  {
    var rest := days[1..];
    forall i | 0 <= i < |rest| ensures rest[i] < Prev(rest, days[0], i) {
      assert rest[i] == days[i + 1];
      assert Prev(rest, days[0], i) == days[i];
    }
  }

  /** Below the first day, the rest is still descending. */
  lemma BelowTail(days: seq<int>, current: int)
    requires days != [] && Below(days, current)
    ensures Below(days[1..], days[0])
  {
    var rest := days[1..];
    forall i | 0 <= i < |rest| ensures rest[i] < Prev(rest, days[0], i) {
      PrevTail(days, current, i + 1);
      assert rest[i] == days[i + 1];
    }
  }

  /** The day before position `i` of the list is the day before position `i - 1` of its tail. */
  lemma PrevTail(days: seq<int>, current: int, i: nat)
    requires 0 < i <= |days|
    ensures Prev(days[1..], days[0], i - 1) == Prev(days, current, i)
  {
    if i > 1 {
      assert days[1..][i - 2] == days[i - 1];
    }
  }

  /**
   * What `StreakFrom` takes on descending days: each taken day is the one
   * before it minus the streak so far, and the first other day stops it.
   */
  lemma {:induction false} StreakFromShape(days: seq<int>, current: int, s: nat)
    requires s >= 1 && Below(days, current)
    ensures var r := StreakFrom(days, current, s) - s;
      (forall i :: 0 <= i < r ==> days[i] == Prev(days, current, i) - (s + i))
      && (r < |days| ==> days[r] != Prev(days, current, r) - (s + r))
  {
    if days != [] && days[0] == current - s {
      var rest := days[1..];
      BelowTail(days, current);
      StreakFromShape(rest, days[0], s + 1);
      var bigR := StreakFrom(rest, days[0], s + 1) - (s + 1);
      var r := StreakFrom(days, current, s) - s;
      assert r == bigR + 1;
      forall i | 0 <= i < r
        ensures days[i] == Prev(days, current, i) - (s + i)
      {
        if i > 0 {
          PrevTail(days, current, i);
          assert days[i] == rest[i - 1];
        }
      }
      if r < |days| {
        PrevTail(days, current, r);
        assert days[r] == rest[bigR];
      }
    }
  }

  /**
   * The recurrence the loop implements on distinct, descending days: the
   * first day must be today, and after it the day at position `i` is
   * taken exactly when it is `i` days (not one day) before the day taken
   * just before it.
   */
  lemma StreakRecurrence(days: seq<int>, today: int)
    requires StrictlyDescending(days)
    ensures var r := ActivityStreak(days, today);
      (r >= 1 ==> days[0] == today)
      && (forall i :: 1 <= i < r ==> days[i] == days[i - 1] - i)
      && (1 <= r < |days| ==> days[r] != days[r - 1] - r)
  {
    if days != [] && days[0] == today {
      var rest := days[1..];
      assert ActivityStreak(days, today) == StreakFrom(rest, today, 1);
      DescendingBelow(days);
      StreakFromShape(rest, today, 1);
      var r := ActivityStreak(days, today);
      forall i | 1 <= i < r
        ensures days[i] == days[i - 1] - i
      {
        assert rest[i - 1] == Prev(rest, today, i - 1) - i;
      }
      if 1 <= r < |days| {
        assert rest[r - 1] != Prev(rest, today, r - 1) - r;
      }
    }
  }

  /** Today, yesterday and the day before count as a streak of 2. */
  lemma StreakThreeConsecutiveDays(today: int)
    ensures ActivityStreak([today, today - 1, today - 2], today) == 2
  {
    var days := [today, today - 1, today - 2];
    assert [today - 2][1..] == [];
    assert StreakFrom([today - 2], today - 1, 2) == 2;
    assert [today - 1, today - 2][1..] == [today - 2];
    assert StreakFrom([today - 1, today - 2], today, 1) == 2;
    assert days[1..] == [today - 1, today - 2];
  }

  /** The evidently intended streak: the number of leading days that are today, yesterday, and so on. */
  function IntendedStreak(days: seq<int>, today: int): (r: nat)
    ensures r <= |days|
    ensures forall i :: 0 <= i < r ==> days[i] == today - i
    ensures r < |days| ==> days[r] != today - r
  {
    if days == [] || days[0] != today then 0
    else
      var rest := IntendedStreak(days[1..], today - 1);
      assert forall i :: 0 < i <= rest ==> days[i] == days[1..][i - 1];
      1 + rest
  }

  /** The intended streak of today, yesterday and the day before is 3. */
  lemma IntendedThreeConsecutiveDays(today: int)
    ensures IntendedStreak([today, today - 1, today - 2], today) == 3
  {
    var days := [today, today - 1, today - 2];
    assert days[1..] == [today - 1, today - 2];
    assert days[1..][1..] == [today - 2];
    assert days[1..][1..][1..] == [];
  }

  /** The two agree up to a streak of 2 days: today and yesterday are counted alike. */
  lemma StreaksAgreeOnTwoDays(days: seq<int>, today: int)
    requires |days| >= 2 && days[0] == today && days[1] == today - 1
    ensures ActivityStreak(days, today) >= 2 && IntendedStreak(days, today) >= 2
  {
    assert days[1..][0] == days[1];
    assert days[1..][1..] == days[2..];
    assert StreakFrom(days[1..], today, 1) == StreakFrom(days[2..], today - 1, 2);
    assert IntendedStreak(days[1..], today - 1) == 1 + IntendedStreak(days[2..], today - 2);
  }

  /** The progress row of a user and a challenge, if any (`filter_by(...).first()`). */
  function FindProgress(table: seq<UserProgress>, userId: int, challengeId: int): (r: Option<UserProgress>)
    ensures r.Some? ==> r.value in table && r.value.userId == userId && r.value.challengeId == challengeId
    ensures r.None? ==> forall p :: p in table ==> !(p.userId == userId && p.challengeId == challengeId)
  {
    if table == [] then None
    else if table[0].userId == userId && table[0].challengeId == challengeId then Some(table[0])
    else FindProgress(table[1..], userId, challengeId)
  }

  /**
   * `toggle_bookmark`: 404 unless the challenge exists and is published; a
   * user without a record gets a new bookmarked one, otherwise the flag
   * flips. Either way the record is the one the reply reports.
   */
  method ToggleBookmark(table: seq<UserProgress>, userId: int, challengeId: int, published: bool, now: int)
    returns (resp: Response, bookmarked: bool, newTable: seq<UserProgress>)
    modifies set p | p in table
    ensures !published ==> resp == Response(404, "Challenge not found") && newTable == table
    ensures published && FindProgress(table, userId, challengeId).None? ==>
      bookmarked && |newTable| == |table| + 1 && newTable[..|table|] == table && fresh(newTable[|table|])
      && newTable[|table|].userId == userId && newTable[|table|].challengeId == challengeId
      && newTable[|table|].State() == Fresh(now).(isBookmarked := true)
    ensures published && FindProgress(table, userId, challengeId).Some? ==>
      var p := FindProgress(table, userId, challengeId).value;
      newTable == table && bookmarked == !old(p.isBookmarked) && p.isBookmarked == bookmarked
      && p.State() == old(p.State()).(isBookmarked := bookmarked, lastAccessed := now)
    ensures published ==>
      resp == Response(200, if bookmarked then "Challenge added to bookmarks" else "Challenge removed from bookmarks")
    ensures forall p :: p in table && !(p.userId == userId && p.challengeId == challengeId) ==> p.State() == old(p.State())
  {
    if !published {
      return Response(404, "Challenge not found"), false, table;
    }
    var found := FindProgress(table, userId, challengeId);
    var p: UserProgress;
    if found.None? {
      p := new UserProgress(userId, challengeId, now);
      p.isBookmarked := true;
      newTable := table + [p];
    } else {
      p := found.value;
      p.isBookmarked := !p.isBookmarked;
      newTable := table;
    }
    p.lastAccessed := now;
    bookmarked := p.isBookmarked;
    resp := Response(200, if bookmarked then "Challenge added to bookmarks" else "Challenge removed from bookmarks");
  }
}

/**
 * The completion timeline that `get_challenge_leaderboard` returns: the
 * challenge's submissions, ordered by submission time, grouped by user in
 * order of each user's first submission. Every user contributes a start
 * entry (submission 0, no points) followed by one entry per submission,
 * numbered from 1, carrying the running total of the points of the
 * correct submissions so far.
 */
module ChallengeTimeline {
  import opened Wrappers
  import Sequences

  /** One row of the submissions-join-users query, already in `submitted_at` order. */
  datatype SubmissionRow = SubmissionRow(
    userId: int, username: string, avatarUrl: Option<string>,
    points: int, submittedAt: int, isCorrect: bool)

  datatype Attempt = Attempt(points: int, submittedAt: int, isCorrect: bool)

  /** A value of the `user_progressions` dict. */
  datatype Progression = Progression(username: string, avatarUrl: Option<string>, attempts: seq<Attempt>)

  /** One element of `timeline_data`; the start entry has no `submitted_at` and no `is_correct`. */
  datatype TimelineEntry = TimelineEntry(
    userIndex: nat, username: string, userId: int, avatarUrl: Option<string>,
    points: int, cumulativePoints: int, submissionNumber: nat,
    submittedAt: Option<int>, isCorrect: Option<bool>, isStart: bool)

  function AttemptOf(r: SubmissionRow): Attempt
  {
    Attempt(r.points, r.submittedAt, r.isCorrect)
  }

  function UserIds(rows: seq<SubmissionRow>): (ids: seq<int>)
    ensures |ids| == |rows|
    ensures forall k :: 0 <= k < |rows| ==> ids[k] == rows[k].userId
  {
    if rows == [] then [] else UserIds(rows[..|rows| - 1]) + [rows[|rows| - 1].userId]
  }

  /** The key order of `user_progressions`: users by first submission. */
  function UserOrder(rows: seq<SubmissionRow>): seq<int>
  {
    Sequences.Distinct(UserIds(rows))
  }

  /** A user's submissions, in time order. */
  function AttemptsOf(rows: seq<SubmissionRow>, u: int): seq<Attempt>
  {
    if rows == [] then []
    else
      var before := AttemptsOf(rows[..|rows| - 1], u);
      if rows[|rows| - 1].userId == u then before + [AttemptOf(rows[|rows| - 1])] else before
  }

  /** The row that created the user's dict entry (its username and avatar are kept). */
  function FirstRowOf(rows: seq<SubmissionRow>, u: int): (r: SubmissionRow)
    requires u in UserIds(rows)
    ensures r in rows && r.userId == u
  {
    var init := rows[..|rows| - 1];
    assert UserIds(rows) == UserIds(init) + [rows[|rows| - 1].userId];
    if u in UserIds(init) then FirstRowOf(init, u) else rows[|rows| - 1]
  }

  /** The `user_progressions` dict after reading the rows in order. */
  function Progressions(rows: seq<SubmissionRow>): (g: map<int, Progression>)
    ensures forall u :: u in g <==> u in UserIds(rows)
  {
    if rows == [] then map[]
    else
      var g := Progressions(rows[..|rows| - 1]);
      var r := rows[|rows| - 1];
      assert UserIds(rows) == UserIds(rows[..|rows| - 1]) + [r.userId];
      if r.userId in g then g[r.userId := g[r.userId].(attempts := g[r.userId].attempts + [AttemptOf(r)])]
      else g[r.userId := Progression(r.username, r.avatarUrl, [AttemptOf(r)])]
  }

  /** Sum of the points of the correct attempts. */
  function CorrectPoints(attempts: seq<Attempt>): int
  {
    if attempts == [] then 0
    else
      var last := attempts[|attempts| - 1];
      CorrectPoints(attempts[..|attempts| - 1]) + (if last.isCorrect then last.points else 0)
  }

  function StartEntry(index: nat, u: int, p: Progression): TimelineEntry
  {
    TimelineEntry(index, p.username, u, p.avatarUrl, 0, 0, 0, None, None, true)
  }

  /** The entry for the user's `k`-th submission (1-based). */
  function StepEntry(index: nat, u: int, p: Progression, k: nat): TimelineEntry
    requires 1 <= k <= |p.attempts|
  {
    var a := p.attempts[k - 1];
    TimelineEntry(index, p.username, u, p.avatarUrl, a.points, CorrectPoints(p.attempts[..k]),
                  k, Some(a.submittedAt), Some(a.isCorrect), false)
  }

  /** The start entry and the entries of the first `k` submissions. */
  function BlockPrefix(index: nat, u: int, p: Progression, k: nat): (b: seq<TimelineEntry>)
    requires k <= |p.attempts|
    ensures |b| == k + 1
  {
    if k == 0 then [StartEntry(index, u, p)]
    else BlockPrefix(index, u, p, k - 1) + [StepEntry(index, u, p, k)]
  }

  /** Everything one user contributes to the timeline. */
  function Block(index: nat, u: int, p: Progression): (b: seq<TimelineEntry>)
    ensures |b| == |p.attempts| + 1
  {
    BlockPrefix(index, u, p, |p.attempts|)
  }

  function Blocks(order: seq<int>, groups: map<int, Progression>): seq<TimelineEntry>
    requires forall u :: u in order ==> u in groups
  {
    if order == [] then []
    else
      var n := |order|;
      Blocks(order[..n - 1], groups) + Block(n, order[n - 1], groups[order[n - 1]])
  }

  /** The `timeline` field of the leaderboard response, as a function of the query rows. */
  function Timeline(rows: seq<SubmissionRow>): seq<TimelineEntry>
  {
    Blocks(UserOrder(rows), Progressions(rows))
  }

  lemma {:induction false} NoAttemptsWithoutRows(rows: seq<SubmissionRow>, u: int)
    requires u !in UserIds(rows)
    ensures AttemptsOf(rows, u) == []
  {
    if rows != [] {
      assert UserIds(rows) == UserIds(rows[..|rows| - 1]) + [rows[|rows| - 1].userId];
      NoAttemptsWithoutRows(rows[..|rows| - 1], u);
    }
  }

  /**
   * Each user's dict entry holds exactly that user's submissions in time
   * order, with the username and avatar of the user's first row.
   */
  lemma {:induction false} ProgressionsContent(rows: seq<SubmissionRow>, u: int)
    requires u in UserIds(rows)
    ensures Progressions(rows)[u].attempts == AttemptsOf(rows, u)
    ensures Progressions(rows)[u].username == FirstRowOf(rows, u).username
    ensures Progressions(rows)[u].avatarUrl == FirstRowOf(rows, u).avatarUrl
  {
    var init := rows[..|rows| - 1];
    assert UserIds(rows) == UserIds(init) + [rows[|rows| - 1].userId];
    if u in UserIds(init) {
      ProgressionsContent(init, u);
    } else {
      NoAttemptsWithoutRows(init, u);
    }
  }

  /** Reading one more row: a new user is appended to the key order with a one-attempt entry; a known user's attempts grow. */
  lemma GroupStep(rows: seq<SubmissionRow>, i: nat)
    requires i < |rows|
    ensures var r := rows[i];
      var g := Progressions(rows[..i]);
      && (r.userId in g <==> r.userId in UserOrder(rows[..i]))
      && UserOrder(rows[..i + 1]) == UserOrder(rows[..i]) + (if r.userId in g then [] else [r.userId])
      && Progressions(rows[..i + 1]) ==
        if r.userId in g then g[r.userId := g[r.userId].(attempts := g[r.userId].attempts + [AttemptOf(r)])]
        else g[r.userId := Progression(r.username, r.avatarUrl, [AttemptOf(r)])]
  {
    var prefix := rows[..i + 1];
    assert prefix[..i] == rows[..i];
    assert prefix[i] == rows[i];
    assert UserIds(prefix) == UserIds(rows[..i]) + [rows[i].userId];
  }

  /** The first loop of the builder: fill `user_progressions` row by row. */
  method GroupByUser(rows: seq<SubmissionRow>) returns (order: seq<int>, groups: map<int, Progression>)
    ensures order == UserOrder(rows) && groups == Progressions(rows)
  {
    order := [];
    groups := map[];
    var i := 0;
    while i < |rows|
      invariant 0 <= i <= |rows|
      invariant order == UserOrder(rows[..i])
      invariant groups == Progressions(rows[..i])
    {
      var r := rows[i];
      GroupStep(rows, i);
      // A new user's dict starts with no attempts; then the row's attempt is appended.
      var p := if r.userId in groups then groups[r.userId] else Progression(r.username, r.avatarUrl, []);
      if r.userId !in groups {
        order := order + [r.userId];
        assert p.attempts + [AttemptOf(r)] == [AttemptOf(r)];
      }
      groups := groups[r.userId := p.(attempts := p.attempts + [AttemptOf(r)])];
      i := i + 1;
    }
    assert rows[..|rows|] == rows;
  }

  /** The inner loop of the builder: one user's start entry and numbered entries. */
  method AppendUserEntries(timeline: seq<TimelineEntry>, userIndex: nat, u: int, p: Progression)
    returns (extended: seq<TimelineEntry>)
    ensures extended == timeline + Block(userIndex, u, p)
  {
    var cumulative := 0;
    extended := timeline + [StartEntry(userIndex, u, p)];
    var k := 0;
    while k < |p.attempts|
      invariant 0 <= k <= |p.attempts|
      invariant cumulative == CorrectPoints(p.attempts[..k])
      invariant extended == timeline + BlockPrefix(userIndex, u, p, k)
    {
      var a := p.attempts[k];
      if a.isCorrect {
        cumulative := cumulative + a.points;
      }
      assert p.attempts[..k + 1][..k] == p.attempts[..k];
      extended := extended + [TimelineEntry(userIndex, p.username, u, p.avatarUrl, a.points, cumulative,
                                            k + 1, Some(a.submittedAt), Some(a.isCorrect), false)];
      k := k + 1;
    }
  }

  /** The blocks of one more user are those of the users before it followed by its own block. */
  lemma BlocksStep(order: seq<int>, groups: map<int, Progression>, j: nat)
    requires j < |order| && forall u :: u in order ==> u in groups
    ensures forall u :: u in order[..j] ==> u in groups
    ensures Blocks(order[..j + 1], groups) == Blocks(order[..j], groups) + Block(j + 1, order[j], groups[order[j]])
  {
    var prefix := order[..j + 1];
    assert prefix[..j] == order[..j];
    assert prefix[j] == order[j];
  }

  /**
   * The builder of `get_challenge_leaderboard`: group the rows, then walk the
   * groups in key order, numbering users from 1.
   */
  method BuildTimeline(rows: seq<SubmissionRow>) returns (timeline: seq<TimelineEntry>)
    ensures timeline == Timeline(rows)
  {
    var order, groups := GroupByUser(rows);
    timeline := EmitBlocks(order, groups);
  }

  /** The second pass: each user in first-seen order contributes its block, numbered from 1. */
  method EmitBlocks(order: seq<int>, groups: map<int, Progression>) returns (timeline: seq<TimelineEntry>)
    requires forall u :: u in order ==> u in groups
    ensures timeline == Blocks(order, groups)
  {
    timeline := [];
    var userIndex := 0;
    var j := 0;
    while j < |order|
      invariant 0 <= j <= |order|
      invariant userIndex == j
      invariant timeline == Blocks(order[..j], groups)
    {
      var u := order[j];
      userIndex := userIndex + 1;
      BlocksStep(order, groups, j);
      timeline := AppendUserEntries(timeline, userIndex, u, groups[u]);
      j := j + 1;
    }
    assert order[..|order|] == order;
  }

  /** Entry `m` of a block prefix is the start entry or the `m`-th submission's entry. */
  lemma {:induction false} BlockPrefixAt(index: nat, u: int, p: Progression, k: nat, m: nat)
    requires k <= |p.attempts| && m <= k
    ensures |BlockPrefix(index, u, p, k)| == k + 1
    ensures BlockPrefix(index, u, p, k)[m] == if m == 0 then StartEntry(index, u, p) else StepEntry(index, u, p, m)
  {
    if k > 0 {
      BlockPrefixAt(index, u, p, k - 1, if m < k then m else 0);
    }
  }

  /**
   * A user's block: one start entry (submission 0, no points, `is_start`),
   * then the user's submissions numbered 1..n in time order, all tagged with
   * the user's id, index and name.
   */
  lemma BlockShape(index: nat, u: int, p: Progression)
    ensures |Block(index, u, p)| == |p.attempts| + 1
    ensures var b := Block(index, u, p);
      b[0].isStart && b[0].submissionNumber == 0 && b[0].cumulativePoints == 0 && b[0].points == 0
    ensures forall m :: 0 <= m < |Block(index, u, p)| ==>
      var e := Block(index, u, p)[m];
      e.userId == u && e.userIndex == index && e.username == p.username && e.submissionNumber == m
    ensures forall m :: 1 <= m < |Block(index, u, p)| ==>
      var e := Block(index, u, p)[m];
      !e.isStart && e.points == p.attempts[m - 1].points && e.isCorrect == Some(p.attempts[m - 1].isCorrect)
      && e.submittedAt == Some(p.attempts[m - 1].submittedAt)
  {
    forall m | 0 <= m <= |p.attempts| ensures Block(index, u, p)[m] ==
      if m == 0 then StartEntry(index, u, p) else StepEntry(index, u, p, m)
    {
      BlockPrefixAt(index, u, p, |p.attempts|, m);
    }
    BlockPrefixAt(index, u, p, |p.attempts|, 0);
  }

  /**
   * The running total starts at 0, grows by a submission's points exactly
   * when that submission is correct, and ends at the sum of the points of the
   * user's correct submissions.
   */
  lemma BlockCumulative(index: nat, u: int, p: Progression)
    ensures Block(index, u, p)[0].cumulativePoints == 0
    ensures forall m :: 1 <= m < |Block(index, u, p)| ==>
      Block(index, u, p)[m].cumulativePoints ==
        Block(index, u, p)[m - 1].cumulativePoints
        + (if p.attempts[m - 1].isCorrect then p.attempts[m - 1].points else 0)
    ensures Block(index, u, p)[|Block(index, u, p)| - 1].cumulativePoints == CorrectPoints(p.attempts)
  {
    var b := Block(index, u, p);
    BlockPrefixAt(index, u, p, |p.attempts|, 0);
    forall m | 1 <= m < |b|
      ensures b[m].cumulativePoints == b[m - 1].cumulativePoints
        + (if p.attempts[m - 1].isCorrect then p.attempts[m - 1].points else 0)
    {
      BlockPrefixAt(index, u, p, |p.attempts|, m);
      BlockPrefixAt(index, u, p, |p.attempts|, m - 1);
      assert p.attempts[..m][..m - 1] == p.attempts[..m - 1];
    }
    BlockPrefixAt(index, u, p, |p.attempts|, |p.attempts|);
    assert p.attempts[..|p.attempts|] == p.attempts;
  }

  lemma {:induction false} CorrectPointsMonotone(attempts: seq<Attempt>, j: nat, k: nat)
    requires j <= k <= |attempts|
    requires forall a :: a in attempts ==> a.points >= 0
    ensures CorrectPoints(attempts[..j]) <= CorrectPoints(attempts[..k])
  {
    if j < k {
      CorrectPointsMonotone(attempts, j, k - 1);
      assert attempts[..k][..k - 1] == attempts[..k - 1];
      assert attempts[k - 1] in attempts;
    }
  }

  /** With non-negative points the running total never decreases. */
  lemma BlockNonDecreasing(index: nat, u: int, p: Progression, m: nat, m': nat)
    requires m <= m' < |p.attempts| + 1
    requires forall a :: a in p.attempts ==> a.points >= 0
    ensures |Block(index, u, p)| == |p.attempts| + 1
    ensures Block(index, u, p)[m].cumulativePoints <= Block(index, u, p)[m'].cumulativePoints
  {
    BlockPrefixAt(index, u, p, |p.attempts|, m);
    BlockPrefixAt(index, u, p, |p.attempts|, m');
    CorrectPointsMonotone(p.attempts, m, m');
  }

  /** Sum over `order` of the users' submission counts in `rows`. */
  function AttemptTotal(order: seq<int>, rows: seq<SubmissionRow>): nat
  {
    if order == [] then 0 else AttemptTotal(order[..|order| - 1], rows) + |AttemptsOf(rows, order[|order| - 1])|
  }

  lemma {:induction false} BlocksLength(order: seq<int>, rows: seq<SubmissionRow>)
    requires forall u :: u in order ==> u in UserIds(rows)
    ensures |Blocks(order, Progressions(rows))| == |order| + AttemptTotal(order, rows)
  {
    if order != [] {
      var n := |order|;
      assert forall u :: u in order[..n - 1] ==> u in order;
      BlocksLength(order[..n - 1], rows);
      ProgressionsContent(rows, order[n - 1]);
      BlockShape(n, order[n - 1], Progressions(rows)[order[n - 1]]);
    }
  }

  /** Users outside `order` do not contribute to the sum. */
  lemma {:induction false} AttemptTotalAppend(order: seq<int>, rows: seq<SubmissionRow>, r: SubmissionRow)
    requires Sequences.NoDuplicates(order)
    ensures AttemptTotal(order, rows + [r]) == AttemptTotal(order, rows) + (if r.userId in order then 1 else 0)
  {
    if order != [] {
      var n := |order|;
      var init := order[..n - 1];
      assert Sequences.NoDuplicates(init);
      AttemptTotalAppend(init, rows, r);
      assert (rows + [r])[..|rows|] == rows;
      assert r.userId in order <==> r.userId in init || r.userId == order[n - 1];
      assert order[n - 1] !in init;
    }
  }

  lemma {:induction false} AttemptTotalCoversRows(rows: seq<SubmissionRow>)
    ensures AttemptTotal(UserOrder(rows), rows) == |rows|
  {
    if rows != [] {
      var init := rows[..|rows| - 1];
      var r := rows[|rows| - 1];
      assert rows == init + [r];
      assert UserIds(rows) == UserIds(init) + [r.userId];
      AttemptTotalCoversRows(init);
      var o := UserOrder(init);
      AttemptTotalAppend(o, init, r);
      if r.userId !in o {
        assert UserOrder(rows) == o + [r.userId];
        assert (o + [r.userId])[..|o|] == o;
        assert r.userId !in UserIds(init);
        NoAttemptsWithoutRows(init, r.userId);
        assert AttemptsOf(rows, r.userId) == [AttemptOf(r)];
      } else {
        assert UserOrder(rows) == o;
      }
    }
  }

  /** The timeline has one start entry per distinct user plus one entry per submission. */
  lemma TimelineLength(rows: seq<SubmissionRow>)
    ensures |Timeline(rows)| == |UserOrder(rows)| + |rows|
  {
    BlocksLength(UserOrder(rows), rows);
    AttemptTotalCoversRows(rows);
  }

  /** `e.user_index` is the 1-based position of `e.user_id` in first-appearance order. */
  lemma {:induction false} BlocksUserIndex(order: seq<int>, groups: map<int, Progression>, k: nat)
    requires forall u :: u in order ==> u in groups
    requires k < |Blocks(order, groups)|
    ensures var e := Blocks(order, groups)[k];
      1 <= e.userIndex <= |order| && order[e.userIndex - 1] == e.userId
  {
    assert order != [];
    var n := |order|;
    var init := order[..n - 1];
    forall v | v in init ensures v in groups {
      assert v in order;
    }
    var front := Blocks(init, groups);
    var u := order[n - 1];
    var b := Block(n, u, groups[u]);
    assert Blocks(order, groups) == front + b;
    if k < |front| {
      BlocksUserIndex(init, groups, k);
      assert Blocks(order, groups)[k] == front[k];
      assert init[front[k].userIndex - 1] == order[front[k].userIndex - 1];
    } else {
      BlockShape(n, u, groups[u]);
      assert Blocks(order, groups)[k] == b[k - |front|];
    }
  }

  lemma TimelineUserIndex(rows: seq<SubmissionRow>, k: nat)
    requires k < |Timeline(rows)|
    ensures var e := Timeline(rows)[k];
      1 <= e.userIndex <= |UserOrder(rows)| && UserOrder(rows)[e.userIndex - 1] == e.userId
  {
    var o := UserOrder(rows);
    var g := Progressions(rows);
    assert forall u :: u in o ==> u in g;
    BlocksUserIndex(o, g, k);
  }

  /** The entries of one user, in timeline order (the frontend's `userData[id]`). */
  function EntriesOf(t: seq<TimelineEntry>, u: int): seq<TimelineEntry>
  {
    if t == [] then []
    else
      var before := EntriesOf(t[..|t| - 1], u);
      if t[|t| - 1].userId == u then before + [t[|t| - 1]] else before
  }

  lemma {:induction false} EntriesOfConcat(a: seq<TimelineEntry>, b: seq<TimelineEntry>, u: int)
    ensures EntriesOf(a + b, u) == EntriesOf(a, u) + EntriesOf(b, u)
  {
    if b != [] {
      var b' := b[..|b| - 1];
      assert (a + b)[..|a + b| - 1] == a + b';
      EntriesOfConcat(a, b', u);
    } else {
      assert a + b == a;
    }
  }

  lemma {:induction false} EntriesOfUniform(t: seq<TimelineEntry>, u: int)
    requires forall e :: e in t ==> e.userId == u
    ensures EntriesOf(t, u) == t
  {
    if t != [] {
      var init, last := t[..|t| - 1], t[|t| - 1];
      forall e | e in init ensures e.userId == u {
        assert e in t;
      }
      EntriesOfUniform(init, u);
      assert last in t;
      assert EntriesOf(t, u) == init + [last];
      assert init + [last] == t;
    }
  }

  lemma {:induction false} EntriesOfNone(t: seq<TimelineEntry>, u: int)
    requires forall e :: e in t ==> e.userId != u
    ensures EntriesOf(t, u) == []
  {
    if t != [] {
      var init, last := t[..|t| - 1], t[|t| - 1];
      forall e | e in init ensures e.userId != u {
        assert e in t;
      }
      EntriesOfNone(init, u);
      assert last in t;
    }
  }

  /** The last user's block is all of that user's entries and none of anybody else's. */
  lemma EntriesOfLastBlock(front: seq<TimelineEntry>, n: nat, v: int, p: Progression, u: int)
    ensures EntriesOf(front + Block(n, v, p), u) ==
      EntriesOf(front, u) + (if u == v then Block(n, v, p) else [])
  {
    var b := Block(n, v, p);
    EntriesOfConcat(front, b, u);
    BlockShape(n, v, p);
    assert forall e :: e in b ==> e.userId == v;
    if u == v {
      EntriesOfUniform(b, u);
    } else {
      EntriesOfNone(b, u);
    }
  }

  lemma {:induction false} EntriesOfBlocks(order: seq<int>, groups: map<int, Progression>, u: int)
    requires forall v :: v in order ==> v in groups
    requires Sequences.NoDuplicates(order)
    ensures u !in order ==> EntriesOf(Blocks(order, groups), u) == []
    ensures u in order ==>
      EntriesOf(Blocks(order, groups), u) == Block(Position(order, u), u, groups[u])
  {
    if order != [] {
      var n := |order|;
      var init := order[..n - 1];
      var v := order[n - 1];
      assert order == init + [v];
      forall w | w in init ensures w in groups {
        assert w in order;
      }
      assert Sequences.NoDuplicates(init);
      EntriesOfBlocks(init, groups, u);
      assert Blocks(order, groups) == Blocks(init, groups) + Block(n, v, groups[v]);
      EntriesOfLastBlock(Blocks(init, groups), n, v, groups[v], u);
      if u == v {
        assert u !in init;
        Sequences.IndexOfUnique(order, n - 1);
      } else if u in order {
        assert u in init;
        assert Position(order, u) == Position(init, u);
      }
    }
  }

  /**
   * A user's entries of the timeline are exactly that user's block: the start
   * entry then one entry per submission numbered 1..n.
   */
  lemma TimelineEntriesOf(rows: seq<SubmissionRow>, u: int)
    requires u in UserIds(rows)
    ensures u in UserOrder(rows)
    ensures EntriesOf(Timeline(rows), u) == Block(UserIndex(rows, u), u, Progressions(rows)[u])
  {
    EntriesOfBlocks(UserOrder(rows), Progressions(rows), u);
  }

  /** The `user_index` of a user: 1 + position in the order of first submission. */
  function UserIndex(rows: seq<SubmissionRow>, u: int): (k: nat)
    requires u in UserIds(rows)
    ensures 1 <= k <= |UserOrder(rows)| && UserOrder(rows)[k - 1] == u
  {
    Position(UserOrder(rows), u)
  }

  /** 1-based position of the first occurrence of `u` in `order`. */
  function Position(order: seq<int>, u: int): (k: nat)
    requires u in order
    ensures 1 <= k <= |order| && order[k - 1] == u
    ensures forall j :: 0 <= j < k - 1 ==> order[j] != u
  {
    Sequences.IndexOf(order, u) + 1
  }
}

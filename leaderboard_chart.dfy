/**
 * The challenge leaderboard chart: the flat timeline from the backend is
 * regrouped per user and laid out as one row per step, where each user's
 * value at a step is the running total of the entry numbered with that step,
 * or else the last earlier known total (0 before any).
 */
module LeaderboardChart {
  import opened Wrappers
  import Strings
  import Sequences
  import T = ChallengeTimeline

  /** An element of `userData[id]`: the entry plus `step` and `points`. */
  datatype SeriesPoint = SeriesPoint(step: int, points: int, username: string, isCorrect: Option<bool>, submittedAt: Option<int>)

  /** The `user_<id>_username`, `user_<id>_is_correct` and `user_<id>_submitted_at` keys of a row. */
  datatype Detail = Detail(username: string, isCorrect: Option<bool>, submittedAt: Option<int>)

  /** One element of `chartData`: `step`, the `user_<id>` values and, where set, the details. */
  datatype Row = Row(step: int, values: map<int, int>, details: map<int, Detail>)

  function ToPoint(e: T.TimelineEntry): SeriesPoint
  {
    SeriesPoint(e.submissionNumber, e.cumulativePoints, e.username, e.isCorrect, e.submittedAt)
  }

  function Points(es: seq<T.TimelineEntry>): (s: seq<SeriesPoint>)
    ensures |s| == |es| && forall k :: 0 <= k < |es| ==> s[k] == ToPoint(es[k])
  {
    if es == [] then [] else Points(es[..|es| - 1]) + [ToPoint(es[|es| - 1])]
  }

  function TimelineIds(t: seq<T.TimelineEntry>): (ids: seq<int>)
    ensures |ids| == |t| && forall k :: 0 <= k < |t| ==> ids[k] == t[k].userId
  {
    if t == [] then [] else TimelineIds(t[..|t| - 1]) + [t[|t| - 1].userId]
  }

  /** `[...new Set(timeline.map(entry => entry.user_id))]`. */
  function UserIdsOf(t: seq<T.TimelineEntry>): seq<int>
  {
    Sequences.Distinct(TimelineIds(t))
  }

  /** The `userData` object after the grouping `forEach`. */
  function UserData(t: seq<T.TimelineEntry>): (data: map<int, seq<SeriesPoint>>)
    ensures forall u :: u in data <==> u in TimelineIds(t)
  {
    if t == [] then map[]
    else
      var data := UserData(t[..|t| - 1]);
      var e := t[|t| - 1];
      assert TimelineIds(t) == TimelineIds(t[..|t| - 1]) + [e.userId];
      if e.userId in data then data[e.userId := data[e.userId] + [ToPoint(e)]]
      else data[e.userId := [ToPoint(e)]]
  }

  /** Each user's series is that user's timeline entries, in order. */
  lemma {:induction false} UserDataContent(t: seq<T.TimelineEntry>, u: int)
    requires u in TimelineIds(t)
    ensures UserData(t)[u] == Points(T.EntriesOf(t, u))
  {
    var init := t[..|t| - 1];
    var e := t[|t| - 1];
    assert TimelineIds(t) == TimelineIds(init) + [e.userId];
    if u in TimelineIds(init) {
      UserDataContent(init, u);
      if e.userId == u {
        assert Points(T.EntriesOf(t, u)) == Points(T.EntriesOf(init, u) + [e]);
        assert (T.EntriesOf(init, u) + [e])[..|T.EntriesOf(init, u)|] == T.EntriesOf(init, u);
      }
    } else {
      NoEntriesWithoutIds(init, u);
    }
  }

  /** A user with entries in the timeline is one of its ids. */
  lemma EntriesHaveIds(t: seq<T.TimelineEntry>, u: int)
    ensures T.EntriesOf(t, u) != [] ==> u in TimelineIds(t)
  {
    if u !in TimelineIds(t) {
      NoEntriesWithoutIds(t, u);
    }
  }

  lemma {:induction false} NoEntriesWithoutIds(t: seq<T.TimelineEntry>, u: int)
    requires u !in TimelineIds(t)
    ensures T.EntriesOf(t, u) == []
  {
    if t != [] {
      assert TimelineIds(t) == TimelineIds(t[..|t| - 1]) + [t[|t| - 1].userId];
      NoEntriesWithoutIds(t[..|t| - 1], u);
    }
  }

  /** The longest series among `ids` (0 when there are none). */
  function Longest(ids: seq<int>, data: map<int, seq<SeriesPoint>>): (n: nat)
    requires forall u :: u in ids ==> u in data
    ensures forall u :: u in ids ==> |data[u]| <= n
    ensures ids == [] ==> n == 0
    ensures ids != [] ==> exists u :: u in ids && |data[u]| == n
  {
    if ids == [] then 0
    else
      var init := ids[..|ids| - 1];
      var last := ids[|ids| - 1];
      assert ids == init + [last];
      assert forall u :: u in init ==> u in ids;
      var m := Longest(init, data);
      if |data[last]| > m then |data[last]| else m
  }

  /** `maxSteps = Math.max(...lengths, 1)`. */
  function MaxSteps(t: seq<T.TimelineEntry>): (n: nat)
    ensures n >= 1
  {
    var m := Longest(UserIdsOf(t), UserData(t));
    if m > 1 then m else 1
  }

  /** `userSubmissions.find(sub => sub.step === step)`, as an index. */
  function FirstAtStep(series: seq<SeriesPoint>, step: int): (r: Option<nat>)
    ensures r.Some? ==> (r.value < |series| && series[r.value].step == step
      && forall j :: 0 <= j < r.value ==> series[j].step != step)
    ensures r.None? ==> forall j :: 0 <= j < |series| ==> series[j].step != step
  {
    if series == [] then None
    else if series[0].step == step then Some(0)
    else
      match FirstAtStep(series[1..], step)
      case None => None
      case Some(k) => Some(k + 1)
  }

  /** `userSubmissions.filter(sub => sub.step < step).pop()`, as an index. */
  function LastBefore(series: seq<SeriesPoint>, step: int): (r: Option<nat>)
    ensures r.Some? ==> (r.value < |series| && series[r.value].step < step
      && forall j :: r.value < j < |series| ==> series[j].step >= step)
    ensures r.None? ==> forall j :: 0 <= j < |series| ==> series[j].step >= step
  {
    if series == [] then None
    else if series[|series| - 1].step < step then Some(|series| - 1)
    else LastBefore(series[..|series| - 1], step)
  }

  /** The value a user's line takes at `step`. */
  function Cell(series: seq<SeriesPoint>, step: int): int
  {
    match FirstAtStep(series, step)
    case Some(k) => series[k].points
    case None =>
      match LastBefore(series, step)
      case Some(k) => series[k].points
      case None => 0
  }

  function DetailAt(series: seq<SeriesPoint>, k: nat): Detail
    requires k < |series|
  {
    Detail(series[k].username, series[k].isCorrect, series[k].submittedAt)
  }

  /** The `user_<id>` values of a row: every user of `ids`, with the user's cell at the step. */
  function RowValues(ids: seq<int>, data: map<int, seq<SeriesPoint>>, step: int): map<int, int>
    requires forall u :: u in ids ==> u in data
  {
    map u | u in ids :: Cell(data[u], step)
  }

  /** The `user_<id>_details` keys of a row: set only for users with an entry at exactly this step, from the first such entry. */
  function RowDetails(ids: seq<int>, data: map<int, seq<SeriesPoint>>, step: int): map<int, Detail>
    requires forall u :: u in ids ==> u in data
  {
    map u | u in ids && FirstAtStep(data[u], step).Some? :: DetailAt(data[u], FirstAtStep(data[u], step).value)
  }

  function RowAt(ids: seq<int>, data: map<int, seq<SeriesPoint>>, step: int): Row
    requires forall u :: u in ids ==> u in data
  {
    Row(step, RowValues(ids, data, step), RowDetails(ids, data, step))
  }

  /** Rows for steps 1..n. */
  function Rows(ids: seq<int>, data: map<int, seq<SeriesPoint>>, n: nat): seq<Row>
    requires forall u :: u in ids ==> u in data
  {
    seq(n, k requires 0 <= k < n => RowAt(ids, data, k + 1))
  }

  lemma IdsHaveData(t: seq<T.TimelineEntry>)
    ensures forall u :: u in UserIdsOf(t) ==> u in UserData(t)
  {
  }

  /** The `chartData` the component renders. */
  function Chart(t: seq<T.TimelineEntry>): seq<Row>
  {
    IdsHaveData(t);
    Rows(UserIdsOf(t), UserData(t), MaxSteps(t))
  }

  /** The grouping `forEach` of the component. */
  method GroupByUser(t: seq<T.TimelineEntry>) returns (data: map<int, seq<SeriesPoint>>)
    ensures data == UserData(t)
  {
    data := map[];
    var i := 0;
    while i < |t|
      invariant 0 <= i <= |t|
      invariant data == UserData(t[..i])
    {
      var e := t[i];
      assert t[..i + 1][..i] == t[..i];
      assert t[..i + 1][i] == e;
      ghost var before := data;
      if e.userId !in data {
        data := data[e.userId := []];
      }
      data := data[e.userId := data[e.userId] + [ToPoint(e)]];
      if e.userId !in before {
        assert [] + [ToPoint(e)] == [ToPoint(e)];
      }
      assert data ==
        if e.userId in before then before[e.userId := before[e.userId] + [ToPoint(e)]]
        else before[e.userId := [ToPoint(e)]];
      i := i + 1;
    }
    assert t[..|t|] == t;
  }

  lemma RowStep(ids: seq<int>, data: map<int, seq<SeriesPoint>>, step: int, i: nat)
    requires forall u :: u in ids ==> u in data
    requires i < |ids|
    ensures forall v :: v in ids[..i + 1] ==> v in data
    ensures RowValues(ids[..i + 1], data, step) == RowValues(ids[..i], data, step)[ids[i] := Cell(data[ids[i]], step)]
    ensures RowDetails(ids[..i + 1], data, step) ==
      match FirstAtStep(data[ids[i]], step)
      case Some(k) => RowDetails(ids[..i], data, step)[ids[i] := DetailAt(data[ids[i]], k)]
      case None => RowDetails(ids[..i], data, step)
  {
    var next := ids[..i + 1];
    assert next == ids[..i] + [ids[i]];
    forall v | v in next ensures v in data {
      assert v in ids;
    }
    forall v ensures v in next <==> v in ids[..i] || v == ids[i] {
    }
  }

  /** The body of the step loop: fill one row by visiting every user. */
  method BuildRow(ids: seq<int>, data: map<int, seq<SeriesPoint>>, step: int) returns (row: Row)
    requires forall u :: u in ids ==> u in data
    ensures row == RowAt(ids, data, step)
  {
    var values: map<int, int> := map[];
    var details: map<int, Detail> := map[];
    var i := 0;
    while i < |ids|
      invariant 0 <= i <= |ids|
      invariant forall u :: u in ids[..i] ==> u in data
      invariant values == RowValues(ids[..i], data, step)
      invariant details == RowDetails(ids[..i], data, step)
    {
      var u := ids[i];
      var series := data[u];
      RowStep(ids, data, step, i);
      var found := FirstAtStep(series, step);
      if found.Some? {
        values := values[u := series[found.value].points];
        details := details[u := DetailAt(series, found.value)];
      } else {
        var last := LastBefore(series, step);
        values := values[u := if last.Some? then series[last.value].points else 0];
      }
      i := i + 1;
    }
    assert ids[..|ids|] == ids;
    row := Row(step, values, details);
  }

  /** The step loop: one row per step from 1 to `maxSteps`. */
  method BuildRows(ids: seq<int>, data: map<int, seq<SeriesPoint>>, maxSteps: nat) returns (chartData: seq<Row>)
    requires forall u :: u in ids ==> u in data
    ensures chartData == Rows(ids, data, maxSteps)
  {
    chartData := [];
    var step := 1;
    while step <= maxSteps
      invariant 1 <= step <= maxSteps + 1
      invariant chartData == Rows(ids, data, step - 1)
    {
      var row := BuildRow(ids, data, step);
      RowsSnoc(ids, data, step - 1);
      chartData := chartData + [row];
      step := step + 1;
    }
  }

  /** The component's chart construction, including its fallback for an empty result. */
  method BuildChartData(t: seq<T.TimelineEntry>) returns (chartData: seq<Row>)
    ensures chartData == Chart(t)
  {
    var userIds := UserIdsOf(t);
    var userData := GroupByUser(t);
    IdsHaveData(t);
    var longest := Longest(userIds, userData);
    var maxSteps := if longest > 1 then longest else 1;
    chartData := BuildRows(userIds, userData, maxSteps);
    if |chartData| == 0 {
      chartData := [Row(0, map[], map[])];
    }
  }

  /** One more step appends that step's row. */
  lemma RowsSnoc(ids: seq<int>, data: map<int, seq<SeriesPoint>>, n: nat)
    requires forall u :: u in ids ==> u in data
    ensures Rows(ids, data, n + 1) == Rows(ids, data, n) + [RowAt(ids, data, n + 1)]
  {
    var longer, shorter := Rows(ids, data, n + 1), Rows(ids, data, n);
    forall k | 0 <= k < n ensures longer[k] == shorter[k] {
    }
    assert longer[n] == RowAt(ids, data, n + 1);
  }

  /**
   * The chart has `maxSteps` rows, row `i` is step `i + 1`, every user has a
   * value in every row (no gaps), that value is the user's cell at the step,
   * and the detail keys are set exactly for users with an entry numbered
   * with that step, taken from the first such entry.
   */
  lemma ChartShape(t: seq<T.TimelineEntry>, i: nat, u: int)
    requires i < |Chart(t)|
    ensures |Chart(t)| == MaxSteps(t) >= 1
    ensures Chart(t)[i].step == i + 1
    ensures u in Chart(t)[i].values <==> u in UserIdsOf(t)
    ensures u in UserIdsOf(t) ==> Chart(t)[i].values[u] == Cell(UserData(t)[u], i + 1)
    ensures u in Chart(t)[i].details <==> u in UserIdsOf(t) && FirstAtStep(UserData(t)[u], i + 1).Some?
    ensures u in Chart(t)[i].details ==>
      Chart(t)[i].details[u] == DetailAt(UserData(t)[u], FirstAtStep(UserData(t)[u], i + 1).value)
  {
    IdsHaveData(t);
    RowsShape(UserIdsOf(t), UserData(t), MaxSteps(t), i, u);
  }

  /** Row `i` of `Rows` is step `i + 1`, with every user's cell and the details of users with an entry at that step. */
  lemma RowsShape(ids: seq<int>, data: map<int, seq<SeriesPoint>>, n: nat, i: nat, u: int)
    requires forall v :: v in ids ==> v in data
    requires i < n
    ensures |Rows(ids, data, n)| == n
    ensures Rows(ids, data, n)[i].step == i + 1
    ensures u in Rows(ids, data, n)[i].values <==> u in ids
    ensures u in ids ==> Rows(ids, data, n)[i].values[u] == Cell(data[u], i + 1)
    ensures u in Rows(ids, data, n)[i].details <==> u in ids && FirstAtStep(data[u], i + 1).Some?
    ensures u in Rows(ids, data, n)[i].details ==>
      Rows(ids, data, n)[i].details[u] == DetailAt(data[u], FirstAtStep(data[u], i + 1).value)
  {
    assert Rows(ids, data, n)[i] == RowAt(ids, data, i + 1);
  }

  /** An empty timeline yields the single row `{step: 1}` with no user keys. */
  lemma EmptyTimelineChart()
    ensures Chart([]) == [Row(1, map[], map[])]
  {
    IdsHaveData([]);
    assert UserIdsOf([]) == [];
    assert RowValues([], map[], 1) == map[];
    assert RowDetails([], map[], 1) == map[];
    assert Rows([], map[], 1)[0] == RowAt([], map[], 1);
  }

  /** A series whose steps are `base, base + 1, ...` in order. */
  predicate Consecutive(series: seq<SeriesPoint>, base: int)
  {
    forall k :: 0 <= k < |series| ==> series[k].step == base + k
  }

  /** On a consecutive series the cell is the entry at that step, or the last entry once past the end. */
  lemma ConsecutiveCell(series: seq<SeriesPoint>, base: int, s: int)
    requires Consecutive(series, base) && series != []
    requires s >= base
    ensures Cell(series, s) ==
      if s < base + |series| then series[s - base].points else series[|series| - 1].points
  {
    if s < base + |series| {
      assert series[s - base].step == s;
    } else {
      assert series[|series| - 1].step < s;
    }
  }

  /**
   * For a consecutive series with non-decreasing points, the user's line never
   * goes down from the first step on, and stays constant after the last entry.
   */
  lemma CellMonotone(series: seq<SeriesPoint>, base: int, s: int, s': int)
    requires Consecutive(series, base) && series != []
    requires forall j, k :: 0 <= j <= k < |series| ==> series[j].points <= series[k].points
    requires base <= s <= s'
    ensures Cell(series, s) <= Cell(series, s')
    ensures s >= base + |series| - 1 ==> Cell(series, s) == Cell(series, s') == series[|series| - 1].points
  {
    ConsecutiveCell(series, base, s);
    ConsecutiveCell(series, base, s');
  }

  /** Hue of the `index`-th user in half-degrees: `(index * 137.5) % 360` is half of it. */
  function HueHalfDegrees(index: nat): (h: nat)
    ensures h < 720
  {
    (275 * index) % 720
  }

  /** The palette repeats every 144 users. */
  lemma HuePeriod(index: nat)
    ensures HueHalfDegrees(index + 144) == HueHalfDegrees(index)
  {
    var x := 275 * index;
    assert 275 * (index + 144) == x + 720 * 55;
    var q, r := x / 720, x % 720;
    assert x + 720 * 55 == 720 * (q + 55) + r;
    assert (x + 720 * 55) / 720 == q + 55;
  }

  /** The first 144 users get pairwise different hues. */
  lemma HueDistinct(i: nat, j: nat)
    requires i < j < 144
    ensures HueHalfDegrees(i) != HueHalfDegrees(j)
  {
    var qi, qj := 275 * i / 720, 275 * j / 720;
    assert 275 * i == 720 * qi + HueHalfDegrees(i);
    assert 275 * j == 720 * qj + HueHalfDegrees(j);
    // 55 * 55 == 21 * 144 + 1, so 144 divides 55 * d only when it divides d.
    var d, q := j - i, qj - qi;
    assert 11 * (275 * d - 720 * q) == d - 144 * (55 * q - 21 * d);
    assert d - 144 * (55 * q - 21 * d) != 0;
  }

  /** `userColors` after the `forEach` over `userIds` (hues in half-degrees). */
  function Colors(ids: seq<int>): (c: map<int, nat>)
    ensures forall u :: u in c <==> u in ids
  {
    if ids == [] then map[]
    else
      assert ids == ids[..|ids| - 1] + [ids[|ids| - 1]];
      Colors(ids[..|ids| - 1])[ids[|ids| - 1] := HueHalfDegrees(|ids| - 1)]
  }

  method UserColors(ids: seq<int>) returns (colors: map<int, nat>)
    ensures colors == Colors(ids)
  {
    colors := map[];
    var index := 0;
    while index < |ids|
      invariant 0 <= index <= |ids|
      invariant colors == Colors(ids[..index])
    {
      assert ids[..index + 1][..index] == ids[..index];
      colors := colors[ids[index] := HueHalfDegrees(index)];
      index := index + 1;
    }
    assert ids[..|ids|] == ids;
  }

  /** A user's colour depends only on the user's position in `userIds`. */
  lemma {:induction false} ColorsAt(ids: seq<int>, k: nat)
    requires Sequences.NoDuplicates(ids) && k < |ids|
    ensures Colors(ids)[ids[k]] == HueHalfDegrees(k)
  {
    if k < |ids| - 1 {
      var init := ids[..|ids| - 1];
      assert init[k] == ids[k];
      ColorsAt(init, k);
    }
  }

  /** `userNames` after the `forEach` over the timeline. */
  function Names(t: seq<T.TimelineEntry>): (names: map<int, string>)
    ensures forall u :: u in names <==> u in TimelineIds(t)
  {
    if t == [] then map[]
    else
      assert TimelineIds(t) == TimelineIds(t[..|t| - 1]) + [t[|t| - 1].userId];
      Names(t[..|t| - 1])[t[|t| - 1].userId := t[|t| - 1].username]
  }

  method UserNames(t: seq<T.TimelineEntry>) returns (names: map<int, string>)
    ensures names == Names(t)
  {
    names := map[];
    var i := 0;
    while i < |t|
      invariant 0 <= i <= |t|
      invariant names == Names(t[..i])
    {
      assert t[..i + 1][..i] == t[..i];
      names := names[t[i].userId := t[i].username];
      i := i + 1;
    }
    assert t[..|t|] == t;
  }

  /** The legend shows the username of the user's last timeline entry. */
  lemma {:induction false} NamesLastWins(t: seq<T.TimelineEntry>, u: int)
    requires u in TimelineIds(t)
    ensures T.EntriesOf(t, u) != []
    ensures Names(t)[u] == T.EntriesOf(t, u)[|T.EntriesOf(t, u)| - 1].username
  {
    var init, last := t[..|t| - 1], t[|t| - 1];
    assert TimelineIds(t) == TimelineIds(init) + [last.userId];
    assert Names(t) == Names(init)[last.userId := last.username];
    var before := T.EntriesOf(init, u);
    if last.userId == u {
      assert T.EntriesOf(t, u) == before + [last];
    } else {
      assert T.EntriesOf(t, u) == before;
      assert u in TimelineIds(init);
      NamesLastWins(init, u);
    }
  }

  /** JavaScript `s.replace(pat, rep)` with a string pattern: only the first occurrence. */
  function ReplaceFirst(s: string, pat: string, rep: string): string
    requires pat != []
    decreases |s|
  {
    if |s| < |pat| then s
    else if Strings.StartsWith(s, pat) then rep + s[|pat|..]
    else [s[0]] + ReplaceFirst(s[1..], pat, rep)
  }

  /** `s.replace(/_points$/, '')`. */
  function DropPointsSuffix(s: string): string
  {
    if Strings.EndsWith(s, "_points") then s[..|s| - 7] else s
  }

  /** The user id the tooltip reads back from a line's `dataKey`. */
  function TooltipUserKey(dataKey: string): string
  {
    DropPointsSuffix(ReplaceFirst(dataKey, "user_", ""))
  }

  /** The line for user `u` has `dataKey` `user_<u>`. */
  function DataKey(u: int): string
  {
    "user_" + Strings.IntToString(u)
  }

  /** The tooltip recovers `x` from `user_<x>` whenever `x` does not end in `_points`. */
  lemma TooltipRecoversKey(x: string)
    requires !Strings.EndsWith(x, "_points")
    ensures TooltipUserKey("user_" + x) == x
  {
    var s := "user_" + x;
    assert Strings.StartsWith(s, "user_");
    assert s[5..] == x;
  }

  /** Decimal ids never end in `_points`, so every line's tooltip finds its own user. */
  lemma TooltipRecoversId(u: int)
    ensures TooltipUserKey(DataKey(u)) == Strings.IntToString(u)
  {
    var x := Strings.IntToString(u);
    if u < 0 {
      assert x[|x| - 1] == x[1..][|x| - 2];
    }
    assert Strings.IsDigit(x[|x| - 1]);
    Strings.EndsWithLast(x, "_points");
    TooltipRecoversKey(x);
  }

  /** What the tooltip prints for one user at one row. */
  datatype TooltipLine = TooltipLine(username: string, isCorrect: Option<bool>, submittedAt: Option<int>, points: int)

  function Tooltip(row: Row, u: int, value: Option<int>): (line: TooltipLine)
    ensures u in row.details && row.details[u].username != "" ==> line.username == row.details[u].username
    ensures u !in row.details ==> line.username == "Unknown" && line.isCorrect.None? && line.submittedAt.None?
    ensures line.points == if value.Some? then value.value else 0
  {
    var d := if u in row.details then row.details[u] else Detail("", None, None);
    TooltipLine(if d.username != "" then d.username else "Unknown", d.isCorrect, d.submittedAt, value.GetOr(0))
  }

  /** A user's block of timeline entries, as a series: steps 0..n carrying the running totals. */
  lemma BlockSeries(index: nat, u: int, p: T.Progression)
    ensures var series := Points(T.Block(index, u, p));
      |series| == |p.attempts| + 1 && Consecutive(series, 0)
      && forall m :: 0 <= m < |series| ==> series[m].points == T.CorrectPoints(p.attempts[..m])
  {
    T.BlockShape(index, u, p);
    var series := Points(T.Block(index, u, p));
    forall m | 0 <= m < |series| ensures series[m].points == T.CorrectPoints(p.attempts[..m]) {
      T.BlockPrefixAt(index, u, p, |p.attempts|, m);
      if m == 0 {
        assert p.attempts[..0] == [];
      }
    }
  }

  /** A user with entries `es` in the timeline has the series of `es`. */
  lemma SeriesOfEntries(t: seq<T.TimelineEntry>, u: int, es: seq<T.TimelineEntry>)
    requires T.EntriesOf(t, u) == es && es != []
    ensures u in UserIdsOf(t)
    ensures UserData(t)[u] == Points(es)
  {
    EntriesHaveIds(t, u);
    UserDataContent(t, u);
  }

  /** On the backend's timeline, a user's series is the series of the user's block. */
  lemma BackendUserData(rows: seq<T.SubmissionRow>, u: int)
    requires u in T.UserIds(rows)
    ensures u in UserIdsOf(T.Timeline(rows))
    ensures UserData(T.Timeline(rows))[u] ==
      Points(T.Block(T.UserIndex(rows, u), u, T.Progressions(rows)[u]))
  {
    T.TimelineEntriesOf(rows, u);
    SeriesOfEntries(T.Timeline(rows), u, T.Block(T.UserIndex(rows, u), u, T.Progressions(rows)[u]));
  }

  /** The timeline the backend builds gives each user a series numbered 0..n with running totals. */
  lemma BackendSeries(rows: seq<T.SubmissionRow>, u: int)
    requires u in T.UserIds(rows)
    ensures u in UserIdsOf(T.Timeline(rows))
    ensures var series := UserData(T.Timeline(rows))[u];
      var attempts := T.AttemptsOf(rows, u);
      |series| == |attempts| + 1 && Consecutive(series, 0)
      && forall m :: 0 <= m < |series| ==> series[m].points == T.CorrectPoints(attempts[..m])
  {
    BackendUserData(rows, u);
    T.TimelineEntriesOf(rows, u);
    T.ProgressionsContent(rows, u);
    BlockSeries(T.UserIndex(rows, u), u, T.Progressions(rows)[u]);
  }

  /** Every user of the chart is a user of the query rows. */
  lemma TimelineUsers(rows: seq<T.SubmissionRow>, u: int)
    ensures u in UserIdsOf(T.Timeline(rows)) ==> u in T.UserIds(rows)
  {
    var t := T.Timeline(rows);
    if u in UserIdsOf(t) {
      var k :| 0 <= k < |t| && TimelineIds(t)[k] == u;
      T.TimelineUserIndex(rows, k);
    }
  }

  /**
   * End to end: on the backend's timeline the chart has one row more than
   * the largest number of submissions by one user (one row if there are
   * none), and user `u`'s value at row `i` is `u`'s total of correct points
   * over the first `min(i + 1, n)` of `u`'s `n` submissions.
   */
  lemma BackendChart(rows: seq<T.SubmissionRow>)
    ensures forall u :: u in T.UserIds(rows) ==> |T.AttemptsOf(rows, u)| + 1 <= |Chart(T.Timeline(rows))|
    ensures rows == [] ==> |Chart(T.Timeline(rows))| == 1
    ensures rows != [] ==>
      exists u :: u in T.UserIds(rows) && |Chart(T.Timeline(rows))| == |T.AttemptsOf(rows, u)| + 1
  {
    var t := T.Timeline(rows);
    var ids, data := UserIdsOf(t), UserData(t);
    IdsHaveData(t);
    forall u | u in T.UserIds(rows) ensures |T.AttemptsOf(rows, u)| + 1 <= |Chart(t)| {
      BackendSeries(rows, u);
    }
    if rows == [] {
      assert t == [];
    } else {
      assert rows[0].userId in T.UserIds(rows);
      BackendSeries(rows, rows[0].userId);
      var n := Longest(ids, data);
      var w :| w in ids && |data[w]| == n;
      TimelineUsers(rows, w);
      BackendSeries(rows, w);
    }
  }

  /** On a series of running totals numbered from 0, step `s` shows the total after `min(s, n)` submissions. */
  lemma RunningTotalCell(series: seq<SeriesPoint>, attempts: seq<T.Attempt>, s: nat)
    requires |series| == |attempts| + 1 && Consecutive(series, 0)
    requires forall m :: 0 <= m < |series| ==> series[m].points == T.CorrectPoints(attempts[..m])
    ensures Cell(series, s) == T.CorrectPoints(attempts[..if s < |attempts| then s else |attempts|])
  {
    ConsecutiveCell(series, 0, s);
  }

  lemma BackendCell(rows: seq<T.SubmissionRow>, i: nat, u: int)
    requires u in T.UserIds(rows)
    ensures i < |Chart(T.Timeline(rows))| ==>
      u in Chart(T.Timeline(rows))[i].values
      && var n := |T.AttemptsOf(rows, u)|;
      Chart(T.Timeline(rows))[i].values[u] ==
        T.CorrectPoints(T.AttemptsOf(rows, u)[..if i + 1 < n then i + 1 else n])
  {
    if i < |Chart(T.Timeline(rows))| {
      BackendSeries(rows, u);
      ChartShape(T.Timeline(rows), i, u);
      RunningTotalCell(UserData(T.Timeline(rows))[u], T.AttemptsOf(rows, u), i + 1);
    }
  }
}

/**
 * The integer arithmetic of the report frames: the crew x day work matrix,
 * each crew member's worked days, the weekly rest shortfall over 7-day
 * blocks and the off-request cost rows.  The solver's values of the `work`
 * and `total_minutes` variables are inputs; the DataFrames, their sorting
 * and the plots are not modelled.
 */
module Report {
  import opened Wrappers
  import opened Domain


  /** Sum of a list of integers. */
  function Sum(s: seq<int>): int
    decreases |s|
  {
    if s == [] then 0 else Sum(s[..|s| - 1]) + s[|s| - 1]
  }

  lemma {:induction false} SumAppend(s: seq<int>, t: seq<int>)
    ensures Sum(s + t) == Sum(s) + Sum(t)
    decreases |t|
  {
    if t != [] {
      assert (s + t)[..|s + t| - 1] == s + t[..|t| - 1];
      SumAppend(s, t[..|t| - 1]);
    } else {
      assert s + t == s;
    }
  }

  /** Every entry is 0 or 1, as the solver reports Boolean variables. */
  predicate ZeroOne(s: seq<int>) {
    forall i :: 0 <= i < |s| ==> 0 <= s[i] <= 1
  }

  /** A sum of 0/1 values counts at most one per entry. */
  lemma {:induction false} ZeroOneSumBounds(s: seq<int>)
    requires ZeroOne(s)
    ensures 0 <= Sum(s) <= |s|
    decreases |s|
  {
    if s != [] {
      ZeroOneSumBounds(s[..|s| - 1]);
    }
  }

  // ---------------------------------------------------------------- work matrix

  /** `days = list(range(1, horizon_days + 1))` has this many entries. */
  function DayCount(horizon: int): nat {
    if horizon > 0 then horizon else 0
  }

  /** Every crew id has a `work` variable for every day of the horizon. */
  predicate WorkKeysPresent(crewIds: seq<string>, horizon: int, work: map<(string, int), int>) {
    forall c, day :: c in crewIds && 1 <= day <= horizon ==> (c, day) in work
  }

  /**
   * `work_data`: per crew id, its work values for days 1..horizon in day
   * order; `rm.work[(c_id, day)]` raises `KeyError` (here `None`) when a
   * variable is missing.
   */
  function WorkData(crewIds: seq<string>, horizon: int, work: map<(string, int), int>): (r: Option<map<string, seq<int>>>)
    ensures r.Some? <==> WorkKeysPresent(crewIds, horizon, work)
    ensures r.Some? ==>
      && r.value.Keys == set c | c in crewIds
      && forall c :: c in r.value ==>
           |r.value[c]| == DayCount(horizon) &&
           forall day :: 1 <= day <= horizon ==> (c, day) in work && r.value[c][day - 1] == work[(c, day)]
  {
    if WorkKeysPresent(crewIds, horizon, work) then
      Some(map c | c in crewIds :: seq(DayCount(horizon), i requires 0 <= i < DayCount(horizon) => work[(c, i + 1)]))
    else None
  }

  /** The matrix has a row of `horizon` days for every crew id. */
  predicate MatrixFor(crewIds: seq<string>, horizon: int, matrix: map<string, seq<int>>) {
    forall c :: c in crewIds ==> c in matrix && |matrix[c]| == DayCount(horizon)
  }

  /** The row of a crew member's work values, as a `work_matrix.loc[c_id]` lookup. */
  function Row(matrix: map<string, seq<int>>, cId: string): seq<int>
    requires cId in matrix
  {
    matrix[cId]
  }

  // ---------------------------------------------------------------- workloads

  /** One row of the workloads frame. */
  datatype WorkloadRow = WorkloadRow(crewId: string, role: string, totalMinutes: int, workedDays: int)

  /** `crew[i]` is the first crew member with id `cId`. */
  predicate FirstWith(crew: seq<CrewMember>, cId: string, i: int) {
    0 <= i < |crew| && crew[i].crewId == cId && forall k :: 0 <= k < i ==> crew[k].crewId != cId
  }

  /** `next(c.role for c in crew if c.crew_id == c_id)`: the role of the first crew member with the id. */
  function FirstRole(crew: seq<CrewMember>, cId: string): (role: string)
    requires cId in CrewIds(crew)
    ensures exists i :: FirstWith(crew, cId, i) && crew[i].role == role
    decreases |crew|
  {
    if crew[0].crewId == cId then crew[0].role
    else
      assert cId in CrewIds(crew[1..]) by {
        var i :| 0 <= i < |crew| && CrewIds(crew)[i] == cId;
        assert CrewIds(crew[1..])[i - 1] == cId;
      }
      var role := FirstRole(crew[1..], cId);
      ghost var i :| FirstWith(crew[1..], cId, i) && crew[1..][i].role == role;
      assert crew[i + 1] == crew[1..][i];
      assert forall k :: 1 <= k < i + 1 ==> crew[k] == crew[1..][k - 1];
      role
  }

  /**
   * The workloads frame before sorting: one row per crew member in crew
   * order, with the solver's `total_minutes` value and the sum of the work
   * row as the worked days.
   */
  function WorkloadRows(crew: seq<CrewMember>, totals: map<string, int>, matrix: map<string, seq<int>>): (rows: seq<WorkloadRow>)
    requires forall i :: 0 <= i < |crew| ==> crew[i].crewId in totals && crew[i].crewId in matrix
    ensures |rows| == |crew|
    ensures forall i :: 0 <= i < |crew| ==>
      && rows[i].crewId == crew[i].crewId
      && rows[i].totalMinutes == totals[crew[i].crewId]
      && rows[i].workedDays == Sum(matrix[crew[i].crewId])
  {
    var ids := CrewIds(crew);
    seq(|crew|, i requires 0 <= i < |crew| =>
      WorkloadRow(ids[i], FirstRole(crew, ids[i]), totals[ids[i]], Sum(matrix[ids[i]])))
  }

  /**
   * With distinct crew ids each row carries its own crew member's role, and
   * with 0/1 work values the worked days lie in 0..horizon.
   */
  lemma WorkloadRowsFacts(crew: seq<CrewMember>, totals: map<string, int>, matrix: map<string, seq<int>>, horizon: int)
    requires forall i :: 0 <= i < |crew| ==> crew[i].crewId in totals && crew[i].crewId in matrix
    requires MatrixFor(CrewIds(crew), horizon, matrix)
    ensures var rows := WorkloadRows(crew, totals, matrix);
      forall i :: 0 <= i < |crew| && ZeroOne(matrix[crew[i].crewId]) ==> 0 <= rows[i].workedDays <= DayCount(horizon)
    ensures var rows := WorkloadRows(crew, totals, matrix);
      Distinct(CrewIds(crew)) ==> forall i :: 0 <= i < |crew| ==> rows[i].role == crew[i].role
  {
    var ids := CrewIds(crew);
    var rows := WorkloadRows(crew, totals, matrix);
    forall i | 0 <= i < |crew| && ZeroOne(matrix[crew[i].crewId])
      ensures 0 <= rows[i].workedDays <= DayCount(horizon)
    {
      assert ids[i] in ids;
      ZeroOneSumBounds(matrix[crew[i].crewId]);
    }
    if Distinct(ids) {
      forall i | 0 <= i < |crew| ensures rows[i].role == crew[i].role {
        assert ids[i] in ids;
        var j :| FirstWith(crew, ids[i], j) && crew[j].role == rows[i].role;
        assert ids[j] == ids[i];
      }
    }
  }

  // ---------------------------------------------------------------- weeks

  /** `num_weeks = (horizon_days + WEEK_LEN - 1) // WEEK_LEN` (floor division; the divisor is positive). */
  function NumWeeks(horizon: int): int {
    (horizon + 7 - 1) / 7
  }

  /** The number of iterations of `range(num_weeks)`. */
  function WeekCount(horizon: int): nat {
    if NumWeeks(horizon) > 0 then NumWeeks(horizon) else 0
  }

  function WeekStart(w: int): int {
    w * 7 + 1
  }

  function WeekEnd(w: int, horizon: int): int {
    if (w + 1) * 7 < horizon then (w + 1) * 7 else horizon
  }

  /** The number of weeks is the horizon divided by 7, rounded up; no horizon, no week. */
  lemma NumWeeksIsCeiling(horizon: int)
    ensures horizon >= 1 ==> WeekCount(horizon) >= 1 && 7 * (WeekCount(horizon) - 1) < horizon <= 7 * WeekCount(horizon)
    ensures horizon <= 0 ==> WeekCount(horizon) == 0
  {
  }

  /**
   * The weeks partition days 1..horizon: the first starts on day 1, each
   * has 1 to 7 days, each starts the day after the previous one ends, and
   * the last ends on the horizon.
   */
  lemma WeeksPartition(horizon: int)
    requires horizon >= 1
    ensures WeekStart(0) == 1 && WeekEnd(WeekCount(horizon) - 1, horizon) == horizon
    ensures forall w :: 0 <= w < WeekCount(horizon) ==>
      1 <= WeekStart(w) <= WeekEnd(w, horizon) <= horizon && 1 <= WeekEnd(w, horizon) - WeekStart(w) + 1 <= 7
    ensures forall w :: 0 <= w < WeekCount(horizon) - 1 ==> WeekEnd(w, horizon) + 1 == WeekStart(w + 1)
  {
    NumWeeksIsCeiling(horizon);
  }

  /** Day `d` of the horizon lies in week `(d - 1) / 7`, counted from 0. */
  lemma DayInWeek(horizon: int, d: int)
    requires 1 <= d <= horizon
    ensures var w := (d - 1) / 7;
      0 <= w < WeekCount(horizon) && WeekStart(w) <= d <= WeekEnd(w, horizon)
  {
    NumWeeksIsCeiling(horizon);
  }

  /** Minimum rest days still missing in a week: `max(0, R - rest) if R > 0 else 0`. */
  function Shortfall(required: int, rest: int): (r: int)
    ensures 0 <= r
    ensures required <= 0 ==> r == 0
    ensures required > 0 ==> rest + r >= required
    ensures r > 0 ==> rest + r == required
    ensures rest >= 0 ==> r <= (if required > 0 then required else 0)
  {
    if required > 0 then (if required - rest > 0 then required - rest else 0) else 0
  }

  /** One row of the weekly rest frame. */
  datatype WeekRow = WeekRow(
    crewId: string,
    week: int,
    startDay: int,
    endDay: int,
    workedDays: int,
    restDays: int,
    requiredRestDays: int,
    shortfall: int)

  /** `work_matrix.loc[c_id, start:end].sum()`: the label slice includes both ends. */
  function WorkedIn(row: seq<int>, start: int, end: int): int
    requires 1 <= start <= end + 1 && end <= |row|
  {
    Sum(row[start - 1..end])
  }

  /** The row for week `w` of a crew member whose work row is `row`. */
  function WeekRowOf(cId: string, row: seq<int>, horizon: int, required: int, w: int): WeekRow
    requires |row| == DayCount(horizon) && 0 <= w < WeekCount(horizon)
  {
    WeeksPartition(horizon);
    var start := WeekStart(w);
    var end := WeekEnd(w, horizon);
    var daysInWeek := end - start + 1;
    var worked := WorkedIn(row, start, end);
    var rest := daysInWeek - worked;
    WeekRow(cId, w + 1, start, end, worked, rest, required, Shortfall(required, rest))
  }

  /** The first `k` weekly rows of one crew member. */
  function CrewWeeks(cId: string, row: seq<int>, horizon: int, required: int, k: int): seq<WeekRow>
    requires |row| == DayCount(horizon) && 0 <= k <= WeekCount(horizon)
  {
    seq(k, w requires 0 <= w < k => WeekRowOf(cId, row, horizon, required, w))
  }

  /** The weekly rows of the crew ids `crewIds`, crew by crew and week by week. */
  function WeeklyRows(crewIds: seq<string>, matrix: map<string, seq<int>>, horizon: int, required: int): seq<WeekRow>
    requires MatrixFor(crewIds, horizon, matrix)
    decreases |crewIds|
  {
    if crewIds == [] then []
    else
      var c := crewIds[|crewIds| - 1];
      WeeklyRows(crewIds[..|crewIds| - 1], matrix, horizon, required) +
        CrewWeeks(c, Row(matrix, c), horizon, required, WeekCount(horizon))
  }

  /** The inner loop over `range(num_weeks)` for one crew member. */
  method CrewWeekRows(cId: string, row: seq<int>, horizon: int, required: int) returns (rows: seq<WeekRow>)
    requires |row| == DayCount(horizon)
    ensures rows == CrewWeeks(cId, row, horizon, required, WeekCount(horizon))
  {
    rows := [];
    var numWeeks := (horizon + 7 - 1) / 7;
    var w := 0;
    while w < numWeeks
      invariant 0 <= w <= WeekCount(horizon)
      invariant rows == CrewWeeks(cId, row, horizon, required, w)
    {
      var start := w * 7 + 1;
      var end := if (w + 1) * 7 < horizon then (w + 1) * 7 else horizon;
      var daysInWeek := end - start + 1;
      assert 1 <= start <= end + 1 && end <= |row| by {
        NumWeeksIsCeiling(horizon);
      }
      var worked := Sum(row[start - 1..end]);
      var rest := daysInWeek - worked;
      var shortfall := if required > 0 then (if required - rest > 0 then required - rest else 0) else 0;
      rows := rows + [WeekRow(cId, w + 1, start, end, worked, rest, required, shortfall)];
      assert CrewWeeks(cId, row, horizon, required, w + 1) ==
        CrewWeeks(cId, row, horizon, required, w) + [WeekRowOf(cId, row, horizon, required, w)];
      w := w + 1;
    }
  }

  /** The outer loop over the crew ids, appending each crew member's weekly rows. */
  method WeeklyRestRows(crewIds: seq<string>, matrix: map<string, seq<int>>, horizon: int, required: int)
    returns (rows: seq<WeekRow>)
    requires MatrixFor(crewIds, horizon, matrix)
    ensures rows == WeeklyRows(crewIds, matrix, horizon, required)
  {
    rows := [];
    var i := 0;
    while i < |crewIds|
      invariant 0 <= i <= |crewIds|
      invariant rows == WeeklyRows(crewIds[..i], matrix, horizon, required)
    {
      var cId := crewIds[i];
      var crewRows := CrewWeekRows(cId, matrix[cId], horizon, required);
      rows := rows + crewRows;
      assert crewIds[..i + 1][..i] == crewIds[..i];
      i := i + 1;
    }
    assert crewIds[..|crewIds|] == crewIds;
  }

  /** The weekly frame has one row per crew member per week. */
  lemma {:induction false} WeeklyRowsCount(crewIds: seq<string>, matrix: map<string, seq<int>>, horizon: int, required: int)
    requires MatrixFor(crewIds, horizon, matrix)
    ensures |WeeklyRows(crewIds, matrix, horizon, required)| == |crewIds| * WeekCount(horizon)
    decreases |crewIds|
  {
    if crewIds != [] {
      var init := crewIds[..|crewIds| - 1];
      assert MatrixFor(init, horizon, matrix);
      WeeklyRowsCount(init, matrix, horizon, required);
      assert (|init| + 1) * WeekCount(horizon) == |init| * WeekCount(horizon) + WeekCount(horizon);
    }
  }

  /** The frame is built crew by crew: the rows of two lists of crew ids are the rows of each, one after the other. */
  lemma {:induction false} WeeklyRowsConcat(a: seq<string>, b: seq<string>, matrix: map<string, seq<int>>, horizon: int, required: int)
    requires MatrixFor(a + b, horizon, matrix)
    ensures MatrixFor(a, horizon, matrix) && MatrixFor(b, horizon, matrix)
    ensures WeeklyRows(a + b, matrix, horizon, required) ==
      WeeklyRows(a, matrix, horizon, required) + WeeklyRows(b, matrix, horizon, required)
    decreases |b|
  {
    assert MatrixFor(a, horizon, matrix) && MatrixFor(b, horizon, matrix) by {
      assert forall c :: c in a ==> c in a + b;
      assert forall c :: c in b ==> c in a + b;
    }
    if b == [] {
      assert a + b == a;
    } else {
      var init := b[..|b| - 1];
      assert (a + b)[..|a + b| - 1] == a + init;
      assert MatrixFor(a + init, horizon, matrix) by {
        assert forall x :: x in a + init ==> x in a + b;
      }
      WeeklyRowsConcat(a, init, matrix, horizon, required);
    }
  }

  /** A crew member's week `w`, as a row of the frame. */
  predicate IsWeekRowOf(r: WeekRow, crewIds: seq<string>, matrix: map<string, seq<int>>, horizon: int, required: int)
    requires MatrixFor(crewIds, horizon, matrix)
  {
    exists c, w :: c in crewIds && 0 <= w < WeekCount(horizon) && r == WeekRowOf(c, Row(matrix, c), horizon, required, w)
  }

  /** The rows of the frame are exactly the weekly rows of the listed crew members. */
  lemma {:induction false} WeeklyRowsMembership(crewIds: seq<string>, matrix: map<string, seq<int>>, horizon: int, required: int, r: WeekRow)
    requires MatrixFor(crewIds, horizon, matrix)
    ensures r in WeeklyRows(crewIds, matrix, horizon, required) <==> IsWeekRowOf(r, crewIds, matrix, horizon, required)
    decreases |crewIds|
  {
    if crewIds != [] {
      var init := crewIds[..|crewIds| - 1];
      var c := crewIds[|crewIds| - 1];
      assert crewIds == init + [c];
      assert MatrixFor(init, horizon, matrix);
      WeeklyRowsMembership(init, matrix, horizon, required, r);
      var block := CrewWeeks(c, Row(matrix, c), horizon, required, WeekCount(horizon));
      assert WeeklyRows(crewIds, matrix, horizon, required) == WeeklyRows(init, matrix, horizon, required) + block;
      assert r in block ==> IsWeekRowOf(r, crewIds, matrix, horizon, required) by {
        if r in block {
          var w :| 0 <= w < |block| && block[w] == r;
          assert c in crewIds && 0 <= w < WeekCount(horizon) && r == WeekRowOf(c, Row(matrix, c), horizon, required, w);
        }
      }
      assert IsWeekRowOf(r, crewIds, matrix, horizon, required) ==> r in block || IsWeekRowOf(r, init, matrix, horizon, required) by {
        if IsWeekRowOf(r, crewIds, matrix, horizon, required) {
          var c', w :| c' in crewIds && 0 <= w < WeekCount(horizon) && r == WeekRowOf(c', Row(matrix, c'), horizon, required, w);
          if c' == c {
            assert block[w] == r;
          } else {
            assert c' in init;
          }
        }
      }
      assert IsWeekRowOf(r, init, matrix, horizon, required) ==> IsWeekRowOf(r, crewIds, matrix, horizon, required) by {
        if IsWeekRowOf(r, init, matrix, horizon, required) {
          var c', w :| c' in init && 0 <= w < WeekCount(horizon) && r == WeekRowOf(c', Row(matrix, c'), horizon, required, w);
          assert c' in crewIds;
        }
      }
    }
  }

  /**
   * `pd.DataFrame(rows).sort_values(["crew_id", "week"])`: a frame built
   * from no rows has no `crew_id` column, so the sort raises `KeyError`
   * (here `None`); otherwise the frame holds the rows (their order after the
   * sort is not modelled).
   */
  function WeeklyRestFrame(crewIds: seq<string>, matrix: map<string, seq<int>>, horizon: int, required: int): (r: Option<seq<WeekRow>>)
    requires MatrixFor(crewIds, horizon, matrix)
    ensures r.Some? ==> multiset(r.value) == multiset(WeeklyRows(crewIds, matrix, horizon, required))
  {
    var rows := WeeklyRows(crewIds, matrix, horizon, required);
    if rows == [] then None else Some(rows)
  }

  /** The weekly frame fails exactly when there is no crew member or no week in the horizon. */
  lemma WeeklyRestFrameFails(crewIds: seq<string>, matrix: map<string, seq<int>>, horizon: int, required: int)
    requires MatrixFor(crewIds, horizon, matrix)
    ensures WeeklyRestFrame(crewIds, matrix, horizon, required).None? <==> crewIds == [] || horizon < 1
  {
    WeeklyRowsCount(crewIds, matrix, horizon, required);
    NumWeeksIsCeiling(horizon);
    if crewIds != [] && horizon >= 1 {
      assert |crewIds| * WeekCount(horizon) >= WeekCount(horizon);
    }
  }

  /**
   * Each weekly row's numbers: rest days are the week's days minus the days
   * worked; for 0/1 work values the worked days lie in 0..days of the week;
   * and the shortfall lies in 0..R, 0 when R is not positive.
   */
  lemma WeekRowBounds(cId: string, row: seq<int>, horizon: int, required: int, w: int)
    requires |row| == DayCount(horizon) && 0 <= w < WeekCount(horizon)
    ensures var r := WeekRowOf(cId, row, horizon, required, w);
      && r.crewId == cId && r.week == w + 1
      && r.restDays == r.endDay - r.startDay + 1 - r.workedDays
      && 1 <= r.endDay - r.startDay + 1 <= 7
      && (ZeroOne(row) ==> 0 <= r.workedDays <= r.endDay - r.startDay + 1)
      && 0 <= r.shortfall
      && (required > 0 ==> r.shortfall == (if required > r.restDays then required - r.restDays else 0))
      && (required <= 0 ==> r.shortfall == 0)
      && (ZeroOne(row) ==> r.shortfall <= (if required > 0 then required else 0))
  {
    WeeksPartition(horizon);
    var start := WeekStart(w);
    var end := WeekEnd(w, horizon);
    if ZeroOne(row) {
      var part := row[start - 1..end];
      assert ZeroOne(part) by {
        forall i | 0 <= i < |part| ensures 0 <= part[i] <= 1 {
          assert part[i] == row[start - 1 + i];
        }
      }
      ZeroOneSumBounds(part);
    }
  }

  /** Worked days of the first `k` weeks. */
  function WeeksWorked(row: seq<int>, horizon: int, k: int): int
    requires |row| == DayCount(horizon) && 0 <= k <= WeekCount(horizon)
    decreases k
  {
    if k == 0 then 0
    else WeeksWorked(row, horizon, k - 1) + WeekRowOf("", row, horizon, 0, k - 1).workedDays
  }

  lemma {:induction false} WeeksWorkedPrefix(row: seq<int>, horizon: int, k: int)
    requires |row| == DayCount(horizon) && 0 <= k <= WeekCount(horizon)
    ensures var e := if 7 * k < horizon then 7 * k else DayCount(horizon);
      WeeksWorked(row, horizon, k) == Sum(row[..e])
    decreases k
  {
    if k > 0 {
      NumWeeksIsCeiling(horizon);
      WeeksWorkedPrefix(row, horizon, k - 1);
      var s := 7 * (k - 1);
      assert s < horizon;
      var e := if 7 * k < horizon then 7 * k else DayCount(horizon);
      assert WeekRowOf("", row, horizon, 0, k - 1).workedDays == Sum(row[s..e]);
      assert WeeksWorked(row, horizon, k - 1) == Sum(row[..s]);
      assert row[..e] == row[..s] + row[s..e];
      SumAppend(row[..s], row[s..e]);
    }
  }

  /**
   * The weekly rows of a crew member together count the worked days of the
   * workloads frame: the worked days of all weeks sum to the whole row.
   */
  lemma WeeksCoverWorkedDays(row: seq<int>, horizon: int)
    requires |row| == DayCount(horizon)
    ensures WeeksWorked(row, horizon, WeekCount(horizon)) == Sum(row)
  {
    WeeksWorkedPrefix(row, horizon, WeekCount(horizon));
    NumWeeksIsCeiling(horizon);
    assert row[..|row|] == row;
  }

  // ---------------------------------------------------------------- off requests

  /** One row of the off-request frame. */
  datatype OffRow = OffRow(crewId: string, day: int, penalty: int, worked: int, cost: int)

  /** `solver.Value(rm.work.get((crew_id, day), 0))`: a day without a work variable counts as not worked. */
  function WorkedOn(work: map<(string, int), int>, cId: string, day: int): int {
    if (cId, day) in work then work[(cId, day)] else 0
  }

  /** The off-request rows: one per request, in request order, costing worked x penalty. */
  function OffRows(reqs: seq<OffRequest>, work: map<(string, int), int>): (rows: seq<OffRow>)
    ensures |rows| == |reqs|
    ensures forall i :: 0 <= i < |reqs| ==>
      && rows[i].crewId == reqs[i].crewId && rows[i].day == reqs[i].day && rows[i].penalty == reqs[i].penalty
      && rows[i].cost == rows[i].worked * reqs[i].penalty
      && ((reqs[i].crewId, reqs[i].day) !in work ==> rows[i].worked == 0 && rows[i].cost == 0)
      && ((reqs[i].crewId, reqs[i].day) in work ==> rows[i].worked == work[(reqs[i].crewId, reqs[i].day)])
  {
    seq(|reqs|, i requires 0 <= i < |reqs| =>
      var worked := WorkedOn(work, reqs[i].crewId, reqs[i].day);
      OffRow(reqs[i].crewId, reqs[i].day, reqs[i].penalty, worked, worked * reqs[i].penalty))
  }

  /** The loop over `off_requests` that appends one row each. */
  method OffRequestRows(reqs: seq<OffRequest>, work: map<(string, int), int>) returns (rows: seq<OffRow>)
    ensures rows == OffRows(reqs, work)
  {
    rows := [];
    var k := 0;
    while k < |reqs|
      invariant 0 <= k <= |reqs|
      invariant rows == OffRows(reqs[..k], work)
    {
      var r := reqs[k];
      var worked := if (r.crewId, r.day) in work then work[(r.crewId, r.day)] else 0;
      rows := rows + [OffRow(r.crewId, r.day, r.penalty, worked, worked * r.penalty)];
      assert reqs[..k + 1] == reqs[..k] + [r];
      k := k + 1;
    }
    assert reqs[..|reqs|] == reqs;
  }

  /** With 0/1 work values a request costs its full penalty when the day is worked and nothing otherwise. */
  lemma OffRowCost(reqs: seq<OffRequest>, work: map<(string, int), int>, i: int)
    requires 0 <= i < |reqs|
    requires forall k :: k in work ==> 0 <= work[k] <= 1
    ensures var r := OffRows(reqs, work)[i];
      r.cost == (if WorkedOn(work, reqs[i].crewId, reqs[i].day) == 1 then reqs[i].penalty else 0)
  {
  }
}

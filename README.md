# Crew rostering core in Dafny

This project models the integer core of the flight-crew rostering package
`crew_rostering` and the scenario generator beside it, and proves properties
of the model. It covers the following parts:

- **Duty record.** `Domain.Duty` is an immutable datatype. It carries the derived duration `end_min - start_min`.
- **Instance validators.** They reject duplicate ids, unknown roles, bad minutes, a day outside the horizon and empty or non-positive coverage. Each check is a function that returns the first failure, in the order `validate_crew` and `validate_duties` raise them.
- **Eligibility map.** It is built by a nested-loop method. That method is proved equal to a fold in which later writes win.
- **Conflict detector.** It computes absolute start and end minutes and tests for overlap or too little rest. A double-loop method lists the conflicting pairs in index order.
- **Coverage pre-check.** It counts eligible crew per duty and role and emits one issue per short entry. The issues are then sorted in place, on an array, by the key `(eligible_count - required, day, duty_id, role)`, with Python's string order.
- **Feasibility and rostering builders.** Each builder becomes a method that emits a constraint model: declared variables plus a list of constraint records, one per `model.Add`. `ConstraintModel.Satisfies` gives the model its meaning. The lemmas then prove what the model says about an assignment:
  - variables exist only for eligible pairs;
  - coverage is exact per role;
  - conflicting duties are exclusive;
  - the workload links hold, with their caps;
  - `max_load` and `min_load` are the extreme workloads;
  - the objective is the spread.
- **Post-solve reductions.**
  - The objective breakdown.
  - The status gate of `solve_instance`.
  - The grouping of assigned crew by duty, and its sorted saved form.
  - The report's work matrix, workloads, weekly rest rows over 7-day blocks and off-request cost rows.
- **Scenario perturbation.** `apply_changes` runs over a value model of its local state:
  - the crew list;
  - the insertion-ordered `duty_by_id` dict;
  - the off-request list.

  A missing key, including a missing `type`, or an unknown duty id is an error value.

Where the code and its own comments or documentation disagree, the model
follows the code:

- `compute_conflict_pairs` documents pairs with `duty_id1 < duty_id2`. The loops order each pair by list position (`duties[i]`, `duties[j]` with `i < j`), and the model uses that index order (`DutyConflicts.ConflictIndexPairsSpec`).
- `validate_duties` reports a repeated duty id with the message "Duplicate crew_id found in crew.json". The model keeps the error apart as `DuplicateDutyId`. The message text is not modelled.
- `solve_instance` calls `build_rostering_model` with keyword arguments that the builder in `rostering_model.py` does not accept. It also reads `worked_days`, `preference_cost`, `weekly_rest_shortfall_total` and `late_to_early_total`, which that builder does not create. The builder is modelled as written. Those four KPI values are plain integer inputs (`SolveInstance.SolverValues`).
- `build_report_frames` reads `rm.work[(c_id, day)]`, which the builder shown does not create either. The report takes the work values as an input map from `(crew_id, day)` to the solver value.
- The weekly rest frame is built with `pd.DataFrame(rows).sort_values(["crew_id", "week"])` whether or not `rows` is empty. An empty row list has no such columns, so the sort raises `KeyError`, and the model returns `None` there (`Report.WeeklyRestFrame`). The off-request frame checks for the empty case and does not fail.

## Model

| member | source | states |
|---|---|---|
| Domain.DurationMin | src/crew_rostering/domain/duty.py:38-40 | start plus duration is the end; the duration is positive exactly when end_min > start_min |
| Domain.CrewIds | src/crew_rostering/model/feasibility_model.py:37 | the id list has one entry per crew member, in crew order |
| Domain.DutyIds | src/crew_rostering/model/feasibility_model.py:38 | the id list has one entry per duty, in duty order |
| StringOrder.StrLeTotal | src/crew_rostering/preprocessing/coverage_check.py:56-58 | Python's string comparison, used in the sort key, is total |
| StringOrder.StrLeAntisymmetric | src/crew_rostering/preprocessing/coverage_check.py:56-58 | two strings each at most the other are equal |
| StringOrder.StrLeTransitive | src/crew_rostering/preprocessing/coverage_check.py:56-58 | the string order is transitive |
| StringOrder.Insert | src/crew_rostering/preprocessing/coverage_check.py:51 | inserting into a sorted list keeps it sorted and adds exactly the one element |
| StringOrder.SortStrings | src/crew_rostering/preprocessing/coverage_check.py:51 | `sorted(...)`: the result is ascending and a permutation of the input |
| ValidateCrewDuties.IdSetSizeIffDistinct | src/crew_rostering/preprocessing/validate_crew_duties.py:13-15 | `len(set(ids)) == len(ids)` holds exactly when no id repeats |
| ValidateCrewDuties.CheckCrewMember | src/crew_rostering/preprocessing/validate_crew_duties.py:17-23 | the role, max_minutes and qualified_types checks of one member, first failure first; it passes exactly when the member is valid |
| ValidateCrewDuties.CheckCrewMembers | src/crew_rostering/preprocessing/validate_crew_duties.py:17-23 | the per-member loop: the error of the first member that fails, else pass (meaning proved in `CheckCrewMembersFirstDefect`) |
| ValidateCrewDuties.ValidateCrew | src/crew_rostering/preprocessing/validate_crew_duties.py:12-23 | `validate_crew`: the duplicate-id check, then the per-member loop (meaning proved in `ValidateCrewPassIff`) |
| ValidateCrewDuties.CheckCoverageEntries | src/crew_rostering/preprocessing/validate_crew_duties.py:41-45 | the coverage loop: unknown role, then non-positive count, for the first bad entry (meaning proved in `CheckCoverageEntriesPassIff`) |
| ValidateCrewDuties.CheckDuty | src/crew_rostering/preprocessing/validate_crew_duties.py:30-45 | day range, start/end bounds, end after start, duration, empty coverage, then the entries, in that order (meaning proved in `CheckDutyPassIff`) |
| ValidateCrewDuties.CheckDuties | src/crew_rostering/preprocessing/validate_crew_duties.py:30-45 | the per-duty loop: the error of the first duty that fails, else pass (meaning proved in `CheckDutiesPassIff`) |
| ValidateCrewDuties.ValidateDuties | src/crew_rostering/preprocessing/validate_crew_duties.py:25-45 | `validate_duties`: the duplicate-id check, then the per-duty loop (meaning proved in `ValidateDutiesPassIff`) |
| ValidateCrewDuties.CheckCrewMembersFirstDefect | src/crew_rostering/preprocessing/validate_crew_duties.py:17-23 | the per-member loop passes iff every member has an allowed role, max_minutes > 0 and a qualified type; a failure is the error of the first bad member |
| ValidateCrewDuties.ValidateCrewPassIff | src/crew_rostering/preprocessing/validate_crew_duties.py:12-23 | `validate_crew` passes iff ids are distinct and every member is valid; it reports the duplicate error exactly when an id repeats |
| ValidateCrewDuties.CheckCoverageEntriesPassIff | src/crew_rostering/preprocessing/validate_crew_duties.py:41-45 | the coverage loop passes iff every role is CAPT, FO or FA with a positive count; its failures are only those two kinds |
| ValidateCrewDuties.CheckDutyPassIff | src/crew_rostering/preprocessing/validate_crew_duties.py:30-45 | one duty passes iff its day is in 1..horizon, 0 <= start < end <= 1440 and its coverage is non-empty and valid; the duration error is never raised |
| ValidateCrewDuties.CheckDutiesPassIff | src/crew_rostering/preprocessing/validate_crew_duties.py:30-45 | the duty loop passes iff every duty is valid; it never reports a too-long duration or a duplicate |
| ValidateCrewDuties.ValidateDutiesPassIff | src/crew_rostering/preprocessing/validate_crew_duties.py:25-45 | `validate_duties` passes iff duty ids are distinct and every duty is valid; the duplicate error exactly when an id repeats |
| ValidateCrewDuties.ValidatedDutyBounds | src/crew_rostering/preprocessing/validate_crew_duties.py:33-38 | the duration check is unreachable; a validated duty has its day in the horizon and 1 <= duration <= 1440 |
| Eligibility.ComputeEligibility | src/crew_rostering/preprocessing/eligibility.py:9-31 | the nested loops build exactly the map of the fold over crew and duties in which later writes win |
| Eligibility.IsEligible | src/crew_rostering/preprocessing/eligibility.py:24-28 | the `ok` test of one pair: role in the duty's coverage, same base, aircraft type among the qualifications (tied to the map by `EligibilityExact`) |
| Eligibility.WriteRowKeys | src/crew_rostering/preprocessing/eligibility.py:23-29 | one crew member's pass adds exactly its (crew_id, duty_id) keys and leaves other crew's entries alone |
| Eligibility.EligibilityKeys | src/crew_rostering/preprocessing/eligibility.py:20-31 | the key set is crew_ids x duty_ids; empty crew or empty duties gives the empty map |
| Eligibility.WriteRowEntry | src/crew_rostering/preprocessing/eligibility.py:23-29 | after one crew member's pass, the entry for the last duty with an id is that duty's eligibility |
| Eligibility.EligibilityEntry | src/crew_rostering/preprocessing/eligibility.py:22-29 | the entry for a pair is the eligibility of the last crew member and last duty with those ids, depending on nothing else |
| Eligibility.EligibilityExact | src/crew_rostering/preprocessing/eligibility.py:24-29 | with distinct ids, `eligible[(c,d)]` is true iff c's role is in d's coverage, the bases match and d's aircraft type is in c's qualifications |
| Eligibility.UnrequestedRoleIneligible | src/crew_rostering/preprocessing/eligibility.py:25 | a crew member whose role no duty requires is eligible for no duty |
| DutyConflicts.AbsStart | src/crew_rostering/preprocessing/duty_conflicts.py:10-11 | `_abs_start`: a start minute within the day lands inside that day's block of 1440 absolute minutes |
| DutyConflicts.AbsEnd | src/crew_rostering/preprocessing/duty_conflicts.py:14-15 | `_abs_end`: an end minute up to midnight lands inside that day's block, its upper end included |
| DutyConflicts.AbsStartDecodes | src/crew_rostering/preprocessing/duty_conflicts.py:10-11 | the absolute start gives back the day (as quotient + 1) and the start minute (as remainder) |
| DutyConflicts.AbsoluteTimeline | src/crew_rostering/preprocessing/duty_conflicts.py:10-15 | the absolute end minus the absolute start is the duration; a duty on an earlier day, with end_min <= 1440, ends no later than a later day's duty starts |
| DutyConflicts.DutiesConflict | src/crew_rostering/preprocessing/duty_conflicts.py:18-37 | overlapping duties always conflict; for well-formed duties, conflict iff they overlap or the gap between them is less than min_rest_minutes |
| DutyConflicts.ConflictSymmetric | src/crew_rostering/preprocessing/duty_conflicts.py:18-37 | the conflict test gives the same answer with its duties swapped |
| DutyConflicts.ZeroRestIsOverlap | src/crew_rostering/preprocessing/duty_conflicts.py:26-34 | with zero minimum rest, conflict is exactly overlap |
| DutyConflicts.ConflictMonotoneInRest | src/crew_rostering/preprocessing/duty_conflicts.py:30-34 | a larger minimum rest never removes a conflict |
| DutyConflicts.ComputeConflictPairs | src/crew_rostering/preprocessing/duty_conflicts.py:40-55 | the double loop returns, position by position, the duty ids of the conflicting index pairs |
| DutyConflicts.RowPairsMembership | src/crew_rostering/preprocessing/duty_conflicts.py:51-53 | the inner loop for i emits exactly the conflicting pairs (i, k) with k below its bound |
| DutyConflicts.RowPairsShape | src/crew_rostering/preprocessing/duty_conflicts.py:51-53 | the inner loop's pairs all start at i, have i < k, and come in ascending order |
| DutyConflicts.RowPairsLength | src/crew_rostering/preprocessing/duty_conflicts.py:51-53 | the inner loop emits at most one pair per k |
| DutyConflicts.PairsBelowMembership | src/crew_rostering/preprocessing/duty_conflicts.py:50-53 | after the first i outer iterations, the pairs are exactly the conflicting pairs with first index below i |
| DutyConflicts.PairsBelowAscending | src/crew_rostering/preprocessing/duty_conflicts.py:50-53 | the pairs emitted so far are strictly ascending in (i, j) |
| DutyConflicts.PairsBelowCount | src/crew_rostering/preprocessing/duty_conflicts.py:50-53 | the number of pairs emitted so far is bounded by the number of index pairs visited |
| DutyConflicts.ConflictIndexPairsSpec | src/crew_rostering/preprocessing/duty_conflicts.py:47-55 | (i, j) is listed iff 0 <= i < j < n and duties i and j conflict; the list is strictly ascending, so no pair repeats; its length is at most n(n-1)/2 |
| CoverageCheck.EligibleCrewOfRole | src/crew_rostering/preprocessing/coverage_check.py:36-41 | the per-role comprehension has at most one id per crew member |
| CoverageCheck.EligibleCrewOfRoleMembers | src/crew_rostering/preprocessing/coverage_check.py:36-40 | an id is listed iff some crew member with that id has the role and `eligible.get(..., False)` for the duty |
| CoverageCheck.IssueLeTotal | src/crew_rostering/preprocessing/coverage_check.py:56-58 | the issue sort key is a total preorder (any two issues compare) |
| CoverageCheck.IssueLeTransitive | src/crew_rostering/preprocessing/coverage_check.py:56-58 | the issue sort key order is transitive |
| CoverageCheck.SinkIssue | src/crew_rostering/preprocessing/coverage_check.py:56-58 | one insertion step extends the sorted prefix by one and permutes the array |
| CoverageCheck.SortIssues | src/crew_rostering/preprocessing/coverage_check.py:56-58 | `issues.sort(key=...)`: the array ends sorted by (gap, day, duty_id, role) and is a permutation of its old contents |
| CoverageCheck.CheckEntry | src/crew_rostering/preprocessing/coverage_check.py:36-53 | one (duty, role) entry yields its issue iff fewer crew are eligible than required, and nothing otherwise |
| CoverageCheck.AppendDutyIssues | src/crew_rostering/preprocessing/coverage_check.py:35-53 | the role loop appends the issues of the duty's short entries, in coverage order |
| CoverageCheck.CheckCoverageFeasibility | src/crew_rostering/preprocessing/coverage_check.py:20-59 | the result is sorted by the severity key and is a permutation of the issues the loops emit |
| CoverageCheck.EntryIssuesMembership | src/crew_rostering/preprocessing/coverage_check.py:35-53 | one duty gives at most one issue per coverage entry, and exactly the issues of its short entries |
| CoverageCheck.UnsortedIssuesMembership | src/crew_rostering/preprocessing/coverage_check.py:34-53 | across duties, the issues are exactly those of short entries, at most one per coverage entry |
| CoverageCheck.EntryIssueConsistent | src/crew_rostering/preprocessing/coverage_check.py:36-51 | an emitted issue has eligible_count == len(eligible_crew_ids) < required, sorted ids, each of the issue's role and eligible for its duty |
| CoverageCheck.CoverageReport | src/crew_rostering/preprocessing/coverage_check.py:26-59 | of the sorted result: entry (j, k) is short iff its issue is listed; at most one issue per entry; every issue consistent; empty iff no entry is short |
| FeasibilityModel.CrewById | src/crew_rostering/model/feasibility_model.py:40 | every crew id is a key of `crew_by_id` |
| FeasibilityModel.DutyById | src/crew_rostering/model/feasibility_model.py:41 | every duty id is a key of `duty_by_id` |
| FeasibilityModel.CrewByIdDistinct | src/crew_rostering/model/feasibility_model.py:40 | with distinct ids, `crew_by_id[c.crew_id]` is c |
| FeasibilityModel.DutyByIdDistinct | src/crew_rostering/model/feasibility_model.py:41 | with distinct ids, `duty_by_id[d.duty_id]` is d |
| FeasibilityModel.DeclareVariables | src/crew_rostering/model/feasibility_model.py:43-48 | the variable loops declare one 0..1 variable per eligible pair, in loop order, and fill the `x` dict with those keys |
| FeasibilityModel.VarPairsMembers | src/crew_rostering/model/feasibility_model.py:44-48 | a pair is visited with a variable iff its crew and duty ids are listed and it is eligible |
| FeasibilityModel.DictKeysSpec | src/crew_rostering/model/feasibility_model.py:44-48 | the `x` dict's keys are the written pairs, each once |
| FeasibilityModel.VarsOfEligible | src/crew_rostering/model/feasibility_model.py:43-48 | a variable exists for (c, d) iff c and d are listed and `eligible.get((c,d), False)`; each is declared 0..1 |
| FeasibilityModel.CollectRoleTerms | src/crew_rostering/model/feasibility_model.py:55-62 | the inner loop collects the existing variables of crew of the role for the duty, in crew order |
| FeasibilityModel.AddCoverageConstraints | src/crew_rostering/model/feasibility_model.py:50-65 | the coverage loops add one `sum == required_n` constraint per duty and coverage entry, in order |
| FeasibilityModel.AddConflictConstraints | src/crew_rostering/model/feasibility_model.py:67-73 | the conflict loops add `v1 + v2 <= 1` for each crew member and conflict pair where both variables exist |
| FeasibilityModel.BuildFeasibilityModel | src/crew_rostering/model/feasibility_model.py:35-75 | the builder returns the variables, then the coverage and then the conflict constraints, with no objective |
| FeasibilityModel.FeasibilityVariables | src/crew_rostering/model/feasibility_model.py:43-75 | the model's variables are exactly the eligible pairs, each 0..1 and declared once, and it has no objective |
| FeasibilityModel.RoleTermsValue | src/crew_rostering/model/feasibility_model.py:55-65 | the value of a role's sum is the number of crew of that role assigned to the duty |
| FeasibilityModel.EntryConstraintHolds | src/crew_rostering/model/feasibility_model.py:53-65 | one coverage constraint holds iff exactly the required number of crew of its role work the duty |
| FeasibilityModel.EntryConstraintsHold | src/crew_rostering/model/feasibility_model.py:53-65 | one duty's coverage constraints hold iff every coverage entry is met exactly |
| FeasibilityModel.CoverageConstraintsHold | src/crew_rostering/model/feasibility_model.py:50-65 | all coverage constraints hold iff every duty is covered exactly, role by role |
| FeasibilityModel.ConflictRowHold | src/crew_rostering/model/feasibility_model.py:69-73 | one crew member's conflict constraints hold iff they work no two duties of a conflict pair |
| FeasibilityModel.ConflictConstraintsHold | src/crew_rostering/model/feasibility_model.py:67-73 | all conflict constraints hold iff no crew member works both duties of any conflict pair |
| FeasibilityModel.DomainMeaning | src/crew_rostering/model/feasibility_model.py:43-48 | an assignment matches the declarations iff it gives a 0/1 value to exactly the eligible pairs |
| FeasibilityModel.ConstraintsMeaning | src/crew_rostering/model/feasibility_model.py:50-73 | with distinct ids, all constraints hold iff coverage is exact and conflicts are respected |
| FeasibilityModel.FeasibilitySemantics | src/crew_rostering/model/feasibility_model.py:24-75 | with distinct ids, an assignment satisfies the model iff it is a feasible roster: 0/1 on exactly the eligible pairs, exact coverage, no conflicting pair |
| FeasibilityModel.NoIneligibleAssignment | src/crew_rostering/model/feasibility_model.py:43-48 | in a solution every variable is an eligible pair, and an ineligible pair is never assigned |
| FeasibilityModel.AssignedAreEligible | src/crew_rostering/model/feasibility_model.py:55-62 | the crew of a role assigned to a duty are no more than the eligible crew the pre-check counts |
| FeasibilityModel.IssueImpliesInfeasible | src/crew_rostering/model/feasibility_model.py:59-65 | if an entry has fewer eligible crew of its role than required, no assignment satisfies the model |
| FeasibilityModel.ReportedIssueImpliesInfeasible | src/crew_rostering/model/feasibility_model.py:64-65 | a non-empty coverage pre-check report means the feasibility model has no solution |
| RosteringModel.CollectWorkloadTerms | src/crew_rostering/model/rostering_model.py:81-87 | the term loop collects `x[c,d] * duration` for the crew member's existing variables, in duty order |
| RosteringModel.AddWorkloads | src/crew_rostering/model/rostering_model.py:74-92 | the workload loop declares the totals and adds the link and cap constraints, crew by crew |
| RosteringModel.WorkloadLayout | src/crew_rostering/model/rostering_model.py:74-92 | one 0..max_minutes total per crew member, and for each the constraints `t == sum(terms)` and `t <= max_minutes`, in crew order |
| RosteringModel.TotalMinutesDict | src/crew_rostering/model/rostering_model.py:71-78 | `total_minutes` has exactly the listed crew ids as keys, each mapped to its total variable |
| RosteringModel.MaxCap | src/crew_rostering/model/rostering_model.py:96 | `max_cap` is the largest max_minutes, or 0 for empty crew |
| RosteringModel.BuildRosteringModel | src/crew_rostering/model/rostering_model.py:21-104 | the builder emits the feasibility part, then the workloads, the two loads and the spread objective |
| RosteringModel.DutyTermValue | src/crew_rostering/model/rostering_model.py:83-87 | a duty's term is worth its duration when assigned and 0 otherwise |
| RosteringModel.WorkloadTermsValue | src/crew_rostering/model/rostering_model.py:80-89 | the sum of terms is the minutes of the duties the crew member works |
| RosteringModel.RosteringContainsFeasibilityModel | src/crew_rostering/model/rostering_model.py:38-68 | a rostering solution meets all feasibility declarations and constraints, and has the same x variables |
| RosteringModel.RosteringContainsFeasibility | src/crew_rostering/model/rostering_model.py:38-68 | a rostering solution restricted to x solves the feasibility model |
| RosteringModel.RosteringFeasible | src/crew_rostering/model/rostering_model.py:38-68 | with distinct ids, a rostering solution is a feasible roster |
| RosteringModel.WorkloadHolds | src/crew_rostering/model/rostering_model.py:76-92 | in a solution each total equals its sum of terms and lies in 0..max_minutes |
| RosteringModel.Workloads | src/crew_rostering/model/rostering_model.py:76-92 | in a solution `total_minutes[c]` is the minutes of the duties c works, and 0 <= it <= c.max_minutes |
| RosteringModel.LoadBounds | src/crew_rostering/model/rostering_model.py:96-104 | AddMax/MinEquality: the loads equal some total and bound all totals; 0 <= min <= max <= cap; the objective is max - min |
| RosteringModel.CrewTotals | src/crew_rostering/model/rostering_model.py:72-78 | `total_vars_list` has one total per crew member, in crew order |
| RosteringModel.RosteringTail | src/crew_rostering/model/rostering_model.py:94-104 | the model ends with the two load declarations, the max and min equalities over the totals and the spread objective |
| RosteringModel.MaxLoadIsLargest | src/crew_rostering/model/rostering_model.py:100 | in a solution crew is non-empty and `max_load` is the largest workload |
| RosteringModel.MinLoadIsSmallest | src/crew_rostering/model/rostering_model.py:101 | in a solution `min_load` is the smallest workload |
| RosteringModel.LoadsSpread | src/crew_rostering/model/rostering_model.py:96-104 | 0 <= min_load <= max_load <= max_cap, and the objective is max_load - min_load >= 0 |
| RosteringModel.WorkedMinutesIdle | src/crew_rostering/model/rostering_model.py:80-89 | a crew member with no variable works 0 minutes |
| RosteringModel.IdleCrewMinLoad | src/crew_rostering/model/rostering_model.py:80-101 | a crew member eligible for no duty has workload 0, so min_load is 0 |
| SolveInstance.ObjectiveBreakdown | src/crew_rostering/solver/solve_instance.py:20-47 | exactly the five named terms; each weight is the scenario's or 0 when missing; contribution = weight x value; spread = max_load - min_load |
| SolveInstance.BreakdownTotal | src/crew_rostering/solver/solve_instance.py:41-46 | `objective_from_terms` is the weighted sum of the five values |
| SolveInstance.MissingWeightContributesNothing | src/crew_rostering/solver/solve_instance.py:21-25 | a missing weight contributes 0 and acts as a weight of 0 |
| SolveInstance.FairnessTermIsRosteringObjective | src/crew_rostering/solver/solve_instance.py:27 | the spread term equals the rostering model's objective in that solution, which is non-negative; with only the fairness weight set, the total is weight x objective |
| SolveInstance.SolveOutcome | src/crew_rostering/solver/solve_instance.py:110-129 | the result always has the instance fields and status name; objective and KPIs only for OPTIMAL or FEASIBLE, then the KPIs read and the breakdown total |
| SolveInstance.AssignedByDuty | src/crew_rostering/solver/solve_instance.py:139-142 | the loop over `rm.x` builds the grouping of assigned crew by duty |
| SolveInstance.GroupAssignedMembers | src/crew_rostering/solver/solve_instance.py:139-142 | c is listed under d iff (c, d) is a variable with value 1; no list is empty |
| SolveInstance.GroupAssignedOnce | src/crew_rostering/solver/solve_instance.py:139-142 | each crew id appears at most once per duty |
| SolveInstance.SavedAssignments | src/crew_rostering/solver/solve_instance.py:157 | the saved lists have the same duties, each sorted and a permutation of its list |
| SolveInstance.SavedAssignmentsOfRoster | src/crew_rostering/solver/solve_instance.py:138-157 | for the rostering model, the saved lists name exactly the eligible crew assigned 1, sorted and without repeats |
| Report.WorkData | src/crew_rostering/visualization/report.py:41-44 | the work data exists iff every crew id has a work value for every day; it then maps each crew id to its values for days 1..horizon |
| Report.FirstRole | src/crew_rostering/visualization/report.py:52 | `next(...)` gives the role of the first crew member with the id |
| Report.WorkloadRows | src/crew_rostering/visualization/report.py:49-55 | one row per crew id, in crew order, with its total minutes and worked_days = the sum of its work row |
| Report.WorkloadRowsFacts | src/crew_rostering/visualization/report.py:52-54 | with 0/1 work values, 0 <= worked_days <= horizon; with distinct ids, each row's role is that crew member's role |
| Report.NumWeeksIsCeiling | src/crew_rostering/visualization/report.py:61 | the number of weeks is ceil(horizon / 7), and 0 for a non-positive horizon |
| Report.WeeksPartition | src/crew_rostering/visualization/report.py:64-67 | the weeks run from day 1 to the horizon, back to back, each 1..7 days |
| Report.DayInWeek | src/crew_rostering/visualization/report.py:64-66 | every day of the horizon lies in week (day - 1) / 7 |
| Report.Shortfall | src/crew_rostering/visualization/report.py:71 | the shortfall is never negative, is 0 when R <= 0, tops rest up to at least R, is no more than needed for that, and is at most R for a non-negative rest |
| Report.CrewWeekRows | src/crew_rostering/visualization/report.py:64-84 | the inner loop builds one crew member's rows for every week, in week order |
| Report.WeeklyRestRows | src/crew_rostering/visualization/report.py:58-84 | the nested loops build the rows of all crew members, crew by crew |
| Report.WeeklyRowsCount | src/crew_rostering/visualization/report.py:63-84 | there are crew x weeks rows |
| Report.WeeklyRowsConcat | src/crew_rostering/visualization/report.py:63-84 | the rows of two crew lists joined are the rows of each, joined |
| Report.WeeklyRowsMembership | src/crew_rostering/visualization/report.py:63-84 | a row is produced iff it is the row of some listed crew member for some week |
| Report.WeekRowBounds | src/crew_rostering/visualization/report.py:59-84 | rest = days - worked; 1..7 days; 0 <= worked <= days for 0/1 values; shortfall = max(0, R - rest) if R > 0 else 0, so 0 <= shortfall <= R |
| Report.WeeksWorkedPrefix | src/crew_rostering/visualization/report.py:64-69 | the worked days of the first k weeks are the sum of the row up to the last day of week k |
| Report.WeeksCoverWorkedDays | src/crew_rostering/visualization/report.py:64-69 | the weekly worked days add up to the crew member's total worked days |
| Report.WeeklyRestFrame | src/crew_rostering/visualization/report.py:86 | when the frame exists it holds exactly the produced rows, as a multiset |
| Report.WeeklyRestFrameFails | src/crew_rostering/visualization/report.py:86 | the frame fails exactly when no row is produced: no crew or a horizon below 1 |
| Report.OffRows | src/crew_rostering/visualization/report.py:89-100 | one row per request in order, carrying its crew, day and penalty; cost = worked x penalty; a missing work entry counts 0 |
| Report.OffRequestRows | src/crew_rostering/visualization/report.py:89-100 | the loop over the requests builds exactly those rows |
| Report.OffRowCost | src/crew_rostering/visualization/report.py:91-98 | with 0/1 work values, the cost is the penalty on a worked day and 0 otherwise |
| GenerateScenarios.FilterMembership | scripts/generate_scenarios.py:40-43 | a comprehension keeps exactly the elements that pass its test |
| GenerateScenarios.DutyIndex | scripts/generate_scenarios.py:33 | `{d["duty_id"]: d for d in duties}`: keys in first-insertion order, the last duty with an id wins (meaning proved in `DutyIndexKeys`, `DutyIndexValid`, `DutyIndexLast`) |
| GenerateScenarios.DutyIndexKeys | scripts/generate_scenarios.py:33 | the keys of `duty_by_id` are exactly the duty ids |
| GenerateScenarios.DutyIndexValid | scripts/generate_scenarios.py:33 | the dict's key order lists each key once, and each key maps to a duty with that id |
| GenerateScenarios.DutyIndexLast | scripts/generate_scenarios.py:33 | a repeated id maps to the last duty with that id |
| GenerateScenarios.DutyIndexRoundTrip | scripts/generate_scenarios.py:82 | with distinct ids, `list(duty_by_id.values())` gives back the input duties in order |
| GenerateScenarios.Clamp | scripts/generate_scenarios.py:50-51 | the clamped end is at least the start; it is the end when that is at least the start, else the start |
| GenerateScenarios.ApplyChange | scripts/generate_scenarios.py:36-78 | one loop pass: a missing `type` fails first, then the dispatch on the five types with their missing-key and unknown-duty errors (effects proved per type below) |
| GenerateScenarios.RemoveCrewEffect | scripts/generate_scenarios.py:38-43 | fails iff crew_id is missing; otherwise keeps exactly the crew and off-requests of other ids; duties unchanged |
| GenerateScenarios.ExtendDutyEffect | scripts/generate_scenarios.py:45-51 | missing or unknown duty fails; otherwise end = end + delta (0 if absent), clamped to at least start, all else unchanged |
| GenerateScenarios.ShiftDutyEffect | scripts/generate_scenarios.py:53-61 | missing or unknown duty fails; otherwise both deltas are added and the end is clamped to the new start, all else unchanged |
| GenerateScenarios.AddOffRequestEffect | scripts/generate_scenarios.py:63-70 | a missing crew_id, day or penalty fails in that order; otherwise exactly one request is appended at the end |
| GenerateScenarios.RemoveOffRequestEffect | scripts/generate_scenarios.py:72-75 | a missing crew_id or day fails; otherwise exactly the requests matching (crew_id, day) are dropped |
| GenerateScenarios.UnknownTypeFails | scripts/generate_scenarios.py:36-78 | a change without `type` fails with the missing-key error exactly; otherwise the unknown-type error is raised iff the type is none of the five |
| GenerateScenarios.ApplyAllConcat | scripts/generate_scenarios.py:35 | applying two lists of changes in turn is applying their concatenation, in list order |
| GenerateScenarios.ErrorAborts | scripts/generate_scenarios.py:35-78 | once a prefix of the changes fails, the whole call fails with that error |
| GenerateScenarios.ApplyChangeKeeps | scripts/generate_scenarios.py:45-61 | a change keeps the duty ids and their order and keeps start <= end; it leaves duties it does not name unchanged |
| GenerateScenarios.ApplyAllKeeps | scripts/generate_scenarios.py:35-61 | the same holds for a whole list of changes |
| GenerateScenarios.ApplyOne | scripts/generate_scenarios.py:36-78 | the loop body, from reading `ch["type"]` through the dispatch, has exactly the effect or error of `ApplyChange` |
| GenerateScenarios.ApplyChanges | scripts/generate_scenarios.py:21-85 | the loop applies the changes in order, stopping at the first error; on success the scenario object is returned unchanged |
| GenerateScenarios.UntouchedDutiesRoundTrip | scripts/generate_scenarios.py:80-85 | with distinct duty ids and no duty change, the returned duties are the input duties |

## Left out

- Solver search and status: CP-SAT's search, time limit and workers are not modelled. The solve status, the solver's values and its objective value are inputs to `SolveInstance.SolveOutcome`, because the search runs in a foreign library.
- `float(solver.ObjectiveValue())` is a float; the model carries the objective as an integer.
- File and JSON I/O are not modelled: the loaders, the output directories and the writes in `solve_instance`, and `read_json`, `write_json` and `main` in the scenario generator. The payload is the value it carries.
- Pandas and matplotlib are not modelled. The report keeps only the integer arithmetic; plots and table saving are left out.
- The CLI scripts other than `apply_changes` are argument parsing and printing and are not modelled.
- `domain/crew.py` and `domain/preferences.py` are plain records. They are datatypes in `Domain` and have nothing further to prove.
- The max-consecutive-day, weekly-rest, late-to-early and per-day work constraints are not in the rostering builder shown. They are not invented here.
- CoverageCheck.SortIssues: the sort is stated as sorted and a permutation. Stability is not stated, as in `CheckCoverageFeasibility`, so the relative order of issues with equal keys is left open. Equal keys need the same duty id and role, so they arise only when duty ids repeat, which `validate_duties` rejects.
- Report.WorkloadRows: the `sort_values(["role", "crew_id"])` row order is not modelled; rows are in crew order. `next(...)` raising `StopIteration` cannot happen for listed ids.
- Report.WeeklyRestFrame: the frame is stated as a multiset of the produced rows. The `(crew_id, week)` order of the sort is not modelled.
- Report.OffRows: the `(crew_id, day)` sort of the off-request frame is not modelled; rows are in request order.
- Report.WeeklyRestRows: the exact position of each row (crew block, then week) is stated through `WeeklyRowsConcat` and `WeeklyRowsMembership`, not as an index formula.
- Report.WorkData: the DataFrame transpose and `loc` lookups are modelled as a map from crew id to its day row.
- RosteringModel.LoadBounds: `AddMaxEquality`/`AddMinEquality` over an empty list is modelled as unsatisfiable, so a model over empty crew has no solution.
- FeasibilityModel.FeasibilitySemantics: this and the other semantic lemmas (`ConstraintsMeaning`, `IssueImpliesInfeasible`, `RosteringFeasible`, `Workloads`, `IdleCrewMinLoad`) assume distinct crew ids and distinct duty ids. Those are what the validators check. With repeated ids, the dicts keep the last entry, and the model's structure lemmas still describe that.
- GenerateScenarios.ApplyChanges: duty dicts are updated as values in a map. The in-place mutation of shared dicts, and their aliasing with the caller's `duties_obj`, are not modelled. Nor is the sharing of the off-request list: until a `remove_crew` or `remove_off_request` rebinds it, `off_requests` is the caller's `prefs_obj["off_requests"]` list, so `add_off_request` also appends to the caller's list. `int(...)` parsing of strings and any extra keys in the JSON objects are not modelled either. A missing key in a crew or off-request entry cannot occur, because the entries are typed records.
- SolveInstance.SolveOutcome: `objective` is an integer in place of a float. The output paths and files in the result are not modelled.
- Validation error messages are not modelled; each error is a constructor with the offending id and value.

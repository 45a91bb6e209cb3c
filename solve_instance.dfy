/**
 * What `solve_instance` does with a solved rostering model: the objective
 * breakdown by weighted term, the status gate on the result record, and the
 * duty -> assigned crew grouping that is saved with sorted lists.  The
 * solver's answer (its status, objective value and variable values) is an
 * input here.
 */
module SolveInstance {
  import opened Wrappers
  import opened Domain
  import opened StringOrder
  import opened ConstraintModel
  import opened Eligibility
  import opened FeasibilityModel
  import opened RosteringModel

  // ---------------------------------------------------------------- breakdown

  /** `solver.Value(...)` of the five KPI variables read by the breakdown and the result. */
  datatype SolverValues = SolverValues(
    maxLoad: int,
    minLoad: int,
    workedDays: int,
    preferenceCost: int,
    weeklyRestShortfall: int,
    lateToEarly: int)

  /** One entry of the `terms` dict. */
  datatype WeightedTerm = WeightedTerm(weight: int, value: int, contribution: int)

  /** The breakdown record, its `terms` dict kept in insertion order. */
  datatype Breakdown = Breakdown(objectiveFromTerms: int, terms: seq<(string, WeightedTerm)>)

  /** The five term names, in the order the `terms` dict is written. */
  const TermNames: seq<string> := ["fairness_spread", "worked_days", "off_request", "weekly_rest_shortfall", "late_to_early"]

  /** `int(weights.get(name, 0))` */
  function WeightOf(weights: map<string, int>, name: string): int {
    if name in weights then weights[name] else 0
  }

  /** The value each term reads from the solver, by position in `TermNames`. */
  function TermValues(v: SolverValues): seq<int> {
    [v.maxLoad - v.minLoad, v.workedDays, v.preferenceCost, v.weeklyRestShortfall, v.lateToEarly]
  }

  function WeightedTermOf(weights: map<string, int>, name: string, value: int): WeightedTerm {
    var w := WeightOf(weights, name);
    WeightedTerm(w, value, w * value)
  }

  /** `sum(t["contribution"] for t in terms.values())` */
  function SumContributions(terms: seq<(string, WeightedTerm)>): int
    decreases |terms|
  {
    if terms == [] then 0
    else SumContributions(terms[..|terms| - 1]) + terms[|terms| - 1].1.contribution
  }

  /**
   * The breakdown has exactly the five named terms, in order; each weight
   * is the scenario's weight for that name (0 when missing), each value the
   * solver's value (the spread is `max_load - min_load`), and each
   * contribution weight times value.
   */
  function ObjectiveBreakdown(v: SolverValues, weights: map<string, int>): (b: Breakdown)
    ensures |b.terms| == 5
    ensures forall i :: 0 <= i < 5 ==> b.terms[i].0 == TermNames[i]
    ensures forall i :: 0 <= i < 5 ==>
      && (TermNames[i] in weights ==> b.terms[i].1.weight == weights[TermNames[i]])
      && (TermNames[i] !in weights ==> b.terms[i].1.weight == 0)
      && b.terms[i].1.contribution == b.terms[i].1.weight * b.terms[i].1.value
    ensures b.terms[0].1.value == v.maxLoad - v.minLoad
    ensures b.terms[1].1.value == v.workedDays
    ensures b.terms[2].1.value == v.preferenceCost
    ensures b.terms[3].1.value == v.weeklyRestShortfall
    ensures b.terms[4].1.value == v.lateToEarly
  {
    var vals := TermValues(v);
    var terms := seq(5, i requires 0 <= i < 5 => (TermNames[i], WeightedTermOf(weights, TermNames[i], vals[i])));
    Breakdown(SumContributions(terms), terms)
  }

  /** `objective_from_terms` is the weighted sum of the five values. */
  lemma BreakdownTotal(v: SolverValues, weights: map<string, int>)
    ensures ObjectiveBreakdown(v, weights).objectiveFromTerms ==
      WeightOf(weights, "fairness_spread") * (v.maxLoad - v.minLoad) +
      WeightOf(weights, "worked_days") * v.workedDays +
      WeightOf(weights, "off_request") * v.preferenceCost +
      WeightOf(weights, "weekly_rest_shortfall") * v.weeklyRestShortfall +
      WeightOf(weights, "late_to_early") * v.lateToEarly
  {
    var t := ObjectiveBreakdown(v, weights).terms;
    assert SumContributions(t[..1]) == t[0].1.contribution by { assert t[..1][..0] == []; }
    assert SumContributions(t[..2]) == SumContributions(t[..1]) + t[1].1.contribution by { assert t[..2][..1] == t[..1]; }
    assert SumContributions(t[..3]) == SumContributions(t[..2]) + t[2].1.contribution by { assert t[..3][..2] == t[..2]; }
    assert SumContributions(t[..4]) == SumContributions(t[..3]) + t[3].1.contribution by { assert t[..4][..3] == t[..3]; }
    assert SumContributions(t) == SumContributions(t[..4]) + t[4].1.contribution;
  }

  /** A term whose weight the scenario leaves out adds nothing to the total. */
  lemma MissingWeightContributesNothing(v: SolverValues, weights: map<string, int>, i: int)
    requires 0 <= i < 5 && TermNames[i] !in weights
    ensures ObjectiveBreakdown(v, weights).terms[i].1.contribution == 0
    ensures ObjectiveBreakdown(v, weights).objectiveFromTerms ==
      ObjectiveBreakdown(v, weights[TermNames[i] := 0]).objectiveFromTerms
  {
    BreakdownTotal(v, weights);
    BreakdownTotal(v, weights[TermNames[i] := 0]);
  }

  /**
   * On a solution of the rostering model, the fairness term's value is the
   * model's own objective; when the scenario weighs nothing else, the
   * breakdown's total is that objective times the fairness weight.
   */
  lemma FairnessTermIsRosteringObjective(crew: seq<CrewMember>, duties: seq<Duty>, eligible: map<PairKey, bool>, conflicts: seq<(string, string)>,
                                         a: Assignment, v: SolverValues, weights: map<string, int>)
    requires Satisfies(RosteringOf(crew, duties, eligible, conflicts).model, a)
    requires v.maxLoad == Value(a, MaxLoad) && v.minLoad == Value(a, MinLoad)
    ensures var obj := ObjectiveValue(RosteringOf(crew, duties, eligible, conflicts).model, a);
      && ObjectiveBreakdown(v, weights).terms[0].1.value == obj >= 0
      && (forall i :: 1 <= i < 5 ==> WeightOf(weights, TermNames[i]) == 0) ==>
           ObjectiveBreakdown(v, weights).objectiveFromTerms == WeightOf(weights, "fairness_spread") * obj
  {
    LoadsSpread(crew, duties, eligible, conflicts, a);
    BreakdownTotal(v, weights);
    if forall i :: 1 <= i < 5 ==> WeightOf(weights, TermNames[i]) == 0 {
      assert WeightOf(weights, TermNames[1]) == 0 && WeightOf(weights, TermNames[2]) == 0;
      assert WeightOf(weights, TermNames[3]) == 0 && WeightOf(weights, TermNames[4]) == 0;
    }
  }

  // ---------------------------------------------------------------- status gate

  /** The solver statuses `StatusName` reports. */
  datatype SolveStatus = Unknown | ModelInvalid | Feasible | Infeasible | Optimal

  function StatusName(s: SolveStatus): string {
    match s
    case Unknown => "UNKNOWN"
    case ModelInvalid => "MODEL_INVALID"
    case Feasible => "FEASIBLE"
    case Infeasible => "INFEASIBLE"
    case Optimal => "OPTIMAL"
  }

  predicate HasSolution(s: SolveStatus) {
    s == Optimal || s == Feasible
  }

  /** The KPI fields `result.update` adds. */
  datatype Kpis = Kpis(spread: int, workedDays: int, preferenceCost: int, weeklyRestShortfall: int, lateToEarlyTotal: int)

  /** The result dict without its file paths: fields a run without a solution leaves out are `None`. */
  datatype SolveResult = SolveResult(
    instanceDir: string,
    instanceName: string,
    status: string,
    objective: Option<int>,
    kpis: Option<Kpis>,
    objectiveFromTerms: Option<int>)

  /**
   * The result record of one solve: the instance and status fields always,
   * the objective only with a solution, and otherwise nothing more; with a
   * solution, the KPIs read from the solver and the breakdown's total.
   */
  method SolveOutcome(instanceDir: string, instanceName: string, status: SolveStatus, objectiveValue: int,
                      v: SolverValues, weights: map<string, int>)
    returns (result: SolveResult)
    ensures result.instanceDir == instanceDir && result.instanceName == instanceName
    ensures result.status == StatusName(status)
    ensures result.objective.Some? <==> HasSolution(status)
    ensures result.objective.Some? ==> result.objective.value == objectiveValue
    ensures !HasSolution(status) ==> result.kpis == None && result.objectiveFromTerms == None
    ensures HasSolution(status) ==>
      && result.kpis == Some(Kpis(v.maxLoad - v.minLoad, v.workedDays, v.preferenceCost, v.weeklyRestShortfall, v.lateToEarly))
      && result.objectiveFromTerms == Some(ObjectiveBreakdown(v, weights).objectiveFromTerms)
  {
    result := SolveResult(instanceDir, instanceName, StatusName(status),
                          if HasSolution(status) then Some(objectiveValue) else None, None, None);
    if !HasSolution(status) {
      return;
    }
    var spread := v.maxLoad - v.minLoad;
    result := result.(kpis := Some(Kpis(spread, v.workedDays, v.preferenceCost, v.weeklyRestShortfall, v.lateToEarly)));
    var breakdown := ObjectiveBreakdown(v, weights);
    result := result.(objectiveFromTerms := Some(breakdown.objectiveFromTerms));
  }

  // ---------------------------------------------------------------- assigned crew by duty

  /** The grouping after the loop has visited the keys `x` of the `x` dict, in dict order. */
  function GroupAssigned(x: seq<PairKey>, a: Assignment): map<string, seq<string>>
    decreases |x|
  {
    if x == [] then map[]
    else
      var m := GroupAssigned(x[..|x| - 1], a);
      var (cId, dId) := x[|x| - 1];
      if Value(a, X(cId, dId)) == 1 then m[dId := (if dId in m then m[dId] else []) + [cId]] else m
  }

  /** `assigned_by_duty.setdefault(d_id, []).append(c_id)` for every variable the solver sets to 1. */
  method AssignedByDuty(x: seq<PairKey>, a: Assignment) returns (m: map<string, seq<string>>)
    ensures m == GroupAssigned(x, a)
  {
    m := map[];
    var k := 0;
    while k < |x|
      invariant 0 <= k <= |x|
      invariant m == GroupAssigned(x[..k], a)
    {
      var (cId, dId) := x[k];
      if Value(a, X(cId, dId)) == 1 {
        var list := if dId in m then m[dId] else [];
        m := m[dId := list + [cId]];
      }
      assert x[..k + 1][..k] == x[..k];
      k := k + 1;
    }
    assert x[..|x|] == x;
  }

  /** Crew id `cId` is listed under duty id `dId`. */
  predicate Listed(m: map<string, seq<string>>, dId: string, cId: string) {
    dId in m && cId in m[dId]
  }

  /** A crew id is listed under a duty exactly when its variable for that duty is 1; no list is empty. */
  lemma {:induction false} GroupAssignedMembers(x: seq<PairKey>, a: Assignment)
    ensures forall dId, cId :: Listed(GroupAssigned(x, a), dId, cId) <==> (cId, dId) in x && Value(a, X(cId, dId)) == 1
    ensures forall dId :: dId in GroupAssigned(x, a) ==> GroupAssigned(x, a)[dId] != []
    decreases |x|
  {
    if x != [] {
      var init := x[..|x| - 1];
      GroupAssignedMembers(init, a);
      assert x == init + [x[|x| - 1]];
      forall dId, cId ensures Listed(GroupAssigned(x, a), dId, cId) <==> (cId, dId) in x && Value(a, X(cId, dId)) == 1 {
        assert (cId, dId) in x <==> (cId, dId) in init || (cId, dId) == x[|x| - 1];
      }
    }
  }

  predicate NoDuplicates<T(==)>(s: seq<T>) {
    forall i, j :: 0 <= i < j < |s| ==> s[i] != s[j]
  }

  /** Each crew id appears at most once in a duty's list, since the `x` dict has each key once. */
  lemma {:induction false} GroupAssignedOnce(x: seq<PairKey>, a: Assignment)
    requires NoDuplicates(x)
    ensures forall dId :: dId in GroupAssigned(x, a) ==> NoDuplicates(GroupAssigned(x, a)[dId])
    decreases |x|
  {
    if x != [] {
      var init := x[..|x| - 1];
      var (cId, dId) := x[|x| - 1];
      assert NoDuplicates(init);
      GroupAssignedOnce(init, a);
      GroupAssignedMembers(init, a);
      assert (cId, dId) !in init by {
        forall i | 0 <= i < |init| ensures init[i] != (cId, dId) {
          assert init[i] == x[i];
        }
      }
    }
  }

  /** The saved `assignments`: `{k: sorted(v) for k, v in assigned_by_duty.items()}`. */
  function SavedAssignments(m: map<string, seq<string>>): (r: map<string, seq<string>>)
    ensures r.Keys == m.Keys
    ensures forall dId :: dId in r ==> SortedStrings(r[dId]) && multiset(r[dId]) == multiset(m[dId])
  {
    map dId | dId in m :: SortStrings(m[dId])
  }

  /**
   * For the rostering model's `x` dict, a duty's saved list names exactly
   * the crew eligible for it whose variable is 1, each once, in ascending
   * order.
   */
  lemma SavedAssignmentsOfRoster(crew: seq<CrewMember>, duties: seq<Duty>, eligible: map<PairKey, bool>, conflicts: seq<(string, string)>, a: Assignment)
    ensures var saved := SavedAssignments(GroupAssigned(RosteringOf(crew, duties, eligible, conflicts).x, a));
      && (forall dId, cId :: Listed(saved, dId, cId) <==> HasVar(crew, duties, eligible, cId, dId) && Value(a, X(cId, dId)) == 1)
      && (forall dId :: dId in saved ==> SortedStrings(saved[dId]) && NoDuplicates(saved[dId]))
  {
    var x := RosteringOf(crew, duties, eligible, conflicts).x;
    var m := GroupAssigned(x, a);
    var saved := SavedAssignments(m);
    FeasibilityVariables(crew, duties, eligible, conflicts);
    GroupAssignedMembers(x, a);
    GroupAssignedOnce(x, a);
    forall dId, cId ensures Listed(saved, dId, cId) <==> Listed(m, dId, cId) {
      if dId in m {
        assert cId in saved[dId] <==> cId in multiset(saved[dId]);
      }
    }
    forall dId | dId in saved ensures NoDuplicates(saved[dId]) {
      SortedDistinct(m[dId], saved[dId]);
    }
  }

  /** A rearrangement of a list without duplicates has none either. */
  lemma SortedDistinct(s: seq<string>, r: seq<string>)
    requires NoDuplicates(s) && multiset(r) == multiset(s)
    ensures NoDuplicates(r)
  {
    forall i, j | 0 <= i < j < |r| ensures r[i] != r[j] {
      if r[i] == r[j] {
        assert multiset(r)[r[i]] >= 2 by {
          assert r == r[..i] + [r[i]] + r[i + 1..j] + [r[j]] + r[j + 1..];
        }
        MultiplicityOne(s, r[i]);
      }
    }
  }

  /** In a list without duplicates every element occurs once. */
  lemma {:induction false} MultiplicityOne(s: seq<string>, e: string)
    requires NoDuplicates(s)
    ensures multiset(s)[e] <= 1
    decreases |s|
  {
    if s != [] {
      var init := s[..|s| - 1];
      assert s == init + [s[|s| - 1]];
      assert NoDuplicates(init);
      MultiplicityOne(init, e);
      if e == s[|s| - 1] {
        assert e !in init by {
          forall i | 0 <= i < |init| ensures init[i] != e {
            assert init[i] == s[i];
          }
        }
      }
    }
  }
}

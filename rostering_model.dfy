/**
 * The rostering model: the feasibility constraints, plus a workload
 * variable per crew member tied to the durations of the duties they work
 * and capped by their maximum minutes, the largest and smallest workload,
 * and the objective of minimising their difference.
 */
module RosteringModel {
  import opened Wrappers
  import opened Domain
  import opened Eligibility
  import opened ConstraintModel
  import opened FeasibilityModel

  // ----------------------------------------------------------- workload

  /** `terms` for crew member `cId`: duration × x[c, d] for each duty with a variable, in duty order. */
  function WorkloadTerms(cId: string, dutyIds: seq<string>, dutyById: map<string, Duty>, x: seq<PairKey>): seq<Term>
    requires KeysOf(dutyIds, dutyById)
    decreases |dutyIds|
  {
    if dutyIds == [] then []
    else
      var dId := dutyIds[|dutyIds| - 1];
      WorkloadTerms(cId, dutyIds[..|dutyIds| - 1], dutyById, x) +
        (if (cId, dId) in x then [Term(X(cId, dId), dutyById[dId].DurationMin())] else [])
  }

  /** What the workload loop adds: declarations, constraints, `total_vars_list` and the `total_minutes` dict. */
  datatype Workload = Workload(decls: seq<Decl>, constraints: seq<Constraint>, totals: seq<Var>, totalMinutes: map<string, Var>)

  /** The workload loop over the crew ids `crewIds`. */
  function WorkloadOf(crewIds: seq<string>, crewById: map<string, CrewMember>, dutyIds: seq<string>, dutyById: map<string, Duty>, x: seq<PairKey>): Workload
    requires KeysOf(crewIds, crewById) && KeysOf(dutyIds, dutyById)
    decreases |crewIds|
  {
    if crewIds == [] then Workload([], [], [], map[])
    else
      var w := WorkloadOf(crewIds[..|crewIds| - 1], crewById, dutyIds, dutyById, x);
      var cId := crewIds[|crewIds| - 1];
      var c := crewById[cId];
      var t := TotalMinutes(cId);
      Workload(
        w.decls + [Decl(t, 0, c.maxMinutes)],
        w.constraints + [Linear([Term(t, 1)], Eq, WorkloadTerms(cId, dutyIds, dutyById, x), 0),
                         Linear([Term(t, 1)], Le, [], c.maxMinutes)],
        w.totals + [t],
        w.totalMinutes[cId := t])
  }

  /** Where crew member `i`'s declaration, workload link, cap and total sit in the loop's output. */
  lemma {:induction false} WorkloadLayout(crewIds: seq<string>, crewById: map<string, CrewMember>, dutyIds: seq<string>, dutyById: map<string, Duty>, x: seq<PairKey>)
    requires KeysOf(crewIds, crewById) && KeysOf(dutyIds, dutyById)
    ensures var w := WorkloadOf(crewIds, crewById, dutyIds, dutyById, x);
      && |w.decls| == |crewIds| && |w.totals| == |crewIds| && |w.constraints| == 2 * |crewIds|
      && (forall i :: 0 <= i < |crewIds| ==>
            && w.decls[i] == Decl(TotalMinutes(crewIds[i]), 0, crewById[crewIds[i]].maxMinutes)
            && w.totals[i] == TotalMinutes(crewIds[i]))
      && (forall i, k :: 0 <= i < |crewIds| && k == 2 * i ==>
            w.constraints[k] == Linear([Term(TotalMinutes(crewIds[i]), 1)], Eq, WorkloadTerms(crewIds[i], dutyIds, dutyById, x), 0))
      && (forall i, k :: 0 <= i < |crewIds| && k == 2 * i + 1 ==>
            w.constraints[k] == Linear([Term(TotalMinutes(crewIds[i]), 1)], Le, [], crewById[crewIds[i]].maxMinutes))
      && (forall v :: v in w.totals ==> v.TotalMinutes?)
    decreases |crewIds|
  {
    if crewIds != [] {
      var init := crewIds[..|crewIds| - 1];
      WorkloadLayout(init, crewById, dutyIds, dutyById, x);
      assert forall i :: 0 <= i < |init| ==> init[i] == crewIds[i];
    }
  }

  /** The `total_minutes` dict maps each crew id to its workload variable. */
  lemma {:induction false} TotalMinutesDict(crewIds: seq<string>, crewById: map<string, CrewMember>, dutyIds: seq<string>, dutyById: map<string, Duty>, x: seq<PairKey>)
    requires KeysOf(crewIds, crewById) && KeysOf(dutyIds, dutyById)
    ensures var w := WorkloadOf(crewIds, crewById, dutyIds, dutyById, x);
      && (forall cId :: cId in w.totalMinutes <==> cId in crewIds)
      && (forall cId :: cId in w.totalMinutes ==> w.totalMinutes[cId] == TotalMinutes(cId))
    decreases |crewIds|
  {
    if crewIds != [] {
      var init := crewIds[..|crewIds| - 1];
      TotalMinutesDict(init, crewById, dutyIds, dutyById, x);
      assert crewIds == init + [crewIds[|crewIds| - 1]];
    }
  }

  /** `max(c.max_minutes for c in crew) if crew else 0` */
  function MaxCap(crew: seq<CrewMember>): (cap: int)
    ensures crew == [] ==> cap == 0
    ensures crew != [] ==> exists i :: 0 <= i < |crew| && cap == crew[i].maxMinutes
    ensures forall i :: 0 <= i < |crew| ==> crew[i].maxMinutes <= cap
    decreases |crew|
  {
    if crew == [] then 0
    else if |crew| == 1 then crew[0].maxMinutes
    else
      var rest := MaxCap(crew[..|crew| - 1]);
      var last := crew[|crew| - 1].maxMinutes;
      if last > rest then last else rest
  }

  method CollectWorkloadTerms(cId: string, dutyIds: seq<string>, dutyById: map<string, Duty>, x: seq<PairKey>)
    returns (terms: seq<Term>)
    requires KeysOf(dutyIds, dutyById)
    ensures terms == WorkloadTerms(cId, dutyIds, dutyById, x)
  {
    terms := [];
    var j := 0;
    while j < |dutyIds|
      invariant 0 <= j <= |dutyIds|
      invariant terms == WorkloadTerms(cId, dutyIds[..j], dutyById, x)
    {
      var dId := dutyIds[j];
      assert dutyIds[..j + 1][..j] == dutyIds[..j];
      if (cId, dId) in x {
        var dur := dutyById[dId].DurationMin();
        terms := terms + [Term(X(cId, dId), dur)];
      }
      j := j + 1;
    }
    assert dutyIds[..|dutyIds|] == dutyIds;
  }

  method AddWorkloads(crewIds: seq<string>, crewById: map<string, CrewMember>, dutyIds: seq<string>, dutyById: map<string, Duty>, x: seq<PairKey>)
    returns (w: Workload)
    requires KeysOf(crewIds, crewById) && KeysOf(dutyIds, dutyById)
    ensures w == WorkloadOf(crewIds, crewById, dutyIds, dutyById, x)
  {
    var decls, constraints, totals, totalMinutes := [], [], [], map[];
    var i := 0;
    while i < |crewIds|
      invariant 0 <= i <= |crewIds|
      invariant Workload(decls, constraints, totals, totalMinutes) == WorkloadOf(crewIds[..i], crewById, dutyIds, dutyById, x)
    {
      var cId := crewIds[i];
      var c := crewById[cId];
      var t := TotalMinutes(cId);
      decls := decls + [Decl(t, 0, c.maxMinutes)];
      totalMinutes := totalMinutes[cId := t];
      totals := totals + [t];
      var terms := CollectWorkloadTerms(cId, dutyIds, dutyById, x);
      constraints := constraints + [Linear([Term(t, 1)], Eq, terms, 0)];
      constraints := constraints + [Linear([Term(t, 1)], Le, [], c.maxMinutes)];
      assert crewIds[..i + 1][..i] == crewIds[..i];
      i := i + 1;
    }
    assert crewIds[..|crewIds|] == crewIds;
    w := Workload(decls, constraints, totals, totalMinutes);
  }

  // ------------------------------------------------------------ builder

  /** `RosteringModel`: the emitted model, the `x` dict's keys, the `total_minutes` dict and the two load variables. */
  datatype Rostering = Rostering(model: CpModel, x: seq<PairKey>, totalMinutes: map<string, Var>, maxLoad: Var, minLoad: Var)

  /** What the rostering builder declares after the feasibility variables: the workloads, then `max_load` and `min_load`. */
  function RosteringExtraDecls(crew: seq<CrewMember>, duties: seq<Duty>, x: seq<PairKey>): seq<Decl> {
    CrewKeys(crew);
    DutyKeys(duties);
    var w := WorkloadOf(CrewIds(crew), CrewById(crew), DutyIds(duties), DutyById(duties), x);
    w.decls + [Decl(MaxLoad, 0, MaxCap(crew)), Decl(MinLoad, 0, MaxCap(crew))]
  }

  /** What the rostering builder adds after the feasibility constraints: the workload links and caps, then the two load equalities. */
  function RosteringExtraConstraints(crew: seq<CrewMember>, duties: seq<Duty>, x: seq<PairKey>): seq<Constraint> {
    CrewKeys(crew);
    DutyKeys(duties);
    var w := WorkloadOf(CrewIds(crew), CrewById(crew), DutyIds(duties), DutyById(duties), x);
    w.constraints + [MaxEquality(MaxLoad, w.totals), MinEquality(MinLoad, w.totals)]
  }

  /** The model `build_rostering_model` emits. */
  function RosteringOf(crew: seq<CrewMember>, duties: seq<Duty>, eligible: map<PairKey, bool>, conflicts: seq<(string, string)>): Rostering {
    var fm := FeasibilityOf(crew, duties, eligible, conflicts);
    CrewKeys(crew);
    DutyKeys(duties);
    var w := WorkloadOf(CrewIds(crew), CrewById(crew), DutyIds(duties), DutyById(duties), fm.x);
    Rostering(
      CpModel(
        fm.model.decls + RosteringExtraDecls(crew, duties, fm.x),
        fm.model.constraints + RosteringExtraConstraints(crew, duties, fm.x),
        Some([Term(MaxLoad, 1), Term(MinLoad, -1)])),
      fm.x, w.totalMinutes, MaxLoad, MinLoad)
  }

  method BuildRosteringModel(crew: seq<CrewMember>, duties: seq<Duty>, eligible: map<PairKey, bool>, conflicts: seq<(string, string)>)
    returns (rm: Rostering)
    ensures rm == RosteringOf(crew, duties, eligible, conflicts)
  {
    // the variables, coverage and conflict constraints are built by the same loops as the feasibility model's
    var fm := BuildFeasibilityModel(crew, duties, eligible, conflicts);
    var x := fm.x;
    var w := AddWorkloads(CrewIds(crew), CrewById(crew), DutyIds(duties), DutyById(duties), x);
    var cap := MaxCap(crew);
    var model := CpModel(
      fm.model.decls + (w.decls + [Decl(MaxLoad, 0, cap), Decl(MinLoad, 0, cap)]),
      fm.model.constraints + (w.constraints + [MaxEquality(MaxLoad, w.totals), MinEquality(MinLoad, w.totals)]),
      Some([Term(MaxLoad, 1), Term(MinLoad, -1)]));
    rm := Rostering(model, x, w.totalMinutes, MaxLoad, MinLoad);
  }

  // ------------------------------------------------------------ meaning

  /** Total minutes of the duties `a` puts crew member `cId` on. */
  function WorkedMinutes(cId: string, duties: seq<Duty>, a: Assignment): int
    decreases |duties|
  {
    if duties == [] then 0
    else
      var d := duties[|duties| - 1];
      WorkedMinutes(cId, duties[..|duties| - 1], a) + (if Value(a, X(cId, d.dutyId)) == 1 then d.DurationMin() else 0)
  }

  /** The term one duty adds to a workload sum is worth the duty's duration when worked and 0 otherwise. */
  lemma DutyTermValue(cId: string, d: Duty, x: seq<PairKey>, a: Assignment)
    requires Fits(x, a)
    ensures var t := if (cId, d.dutyId) in x then [Term(X(cId, d.dutyId), d.DurationMin())] else [];
      LinearValue(t, a) == if Value(a, X(cId, d.dutyId)) == 1 then d.DurationMin() else 0
  {
    if (cId, d.dutyId) in x {
      var t := [Term(X(cId, d.dutyId), d.DurationMin())];
      assert t[..0] == [];
      assert X(cId, d.dutyId) in a;
    } else {
      assert X(cId, d.dutyId) !in a;
    }
  }

  /** With 0/1 assignment values, `sum(terms)` is the total duration of the duties the crew member works. */
  lemma {:induction false} WorkloadTermsValue(cId: string, pre: seq<Duty>, dutyById: map<string, Duty>, x: seq<PairKey>, a: Assignment)
    requires DutyLookup(pre, dutyById) && Fits(x, a)
    ensures KeysOf(DutyIds(pre), dutyById)
    ensures LinearValue(WorkloadTerms(cId, DutyIds(pre), dutyById, x), a) == WorkedMinutes(cId, pre, a)
    decreases |pre|
  {
    if pre != [] {
      var init := pre[..|pre| - 1];
      var d := pre[|pre| - 1];
      assert DutyIds(init) == DutyIds(pre)[..|pre| - 1];
      assert DutyLookup(init, dutyById) by {
        assert forall j :: 0 <= j < |init| ==> init[j] == pre[j];
      }
      WorkloadTermsValue(cId, init, dutyById, x, a);
      var t := if (cId, d.dutyId) in x then [Term(X(cId, d.dutyId), d.DurationMin())] else [];
      assert dutyById[d.dutyId] == d;
      assert WorkloadTerms(cId, DutyIds(pre), dutyById, x) == WorkloadTerms(cId, DutyIds(init), dutyById, x) + t;
      LinearValueAppend(WorkloadTerms(cId, DutyIds(init), dutyById, x), t, a);
      DutyTermValue(cId, d, x, a);
    }
  }

  /** The rostering builder declares no crew/duty variable beyond the feasibility model's. */
  lemma ExtraDeclsNoX(crew: seq<CrewMember>, duties: seq<Duty>, x: seq<PairKey>)
    ensures forall v :: v in DeclaredVars(RosteringExtraDecls(crew, duties, x)) ==> !v.X?
  {
    CrewKeys(crew);
    DutyKeys(duties);
    var w := WorkloadOf(CrewIds(crew), CrewById(crew), DutyIds(duties), DutyById(duties), x);
    WorkloadLayout(CrewIds(crew), CrewById(crew), DutyIds(duties), DutyById(duties), x);
    var extra := RosteringExtraDecls(crew, duties, x);
    forall v | v in DeclaredVars(extra) ensures !v.X? {
      var k :| 0 <= k < |extra| && extra[k].v == v;
      if k < |w.decls| {
        assert extra[k] == w.decls[k];
      }
    }
  }

  /** A solution of the rostering model meets the feasibility model's domains and constraints, and values exactly its variables among the `x` ones. */
  lemma RosteringContainsFeasibilityModel(crew: seq<CrewMember>, duties: seq<Duty>, eligible: map<PairKey, bool>, conflicts: seq<(string, string)>, a: Assignment)
    requires Satisfies(RosteringOf(crew, duties, eligible, conflicts).model, a)
    ensures var fm := FeasibilityOf(crew, duties, eligible, conflicts);
      && InDomain(fm.model.decls, a) && AllHold(fm.model.constraints, a)
      && forall cId, dId :: X(cId, dId) in a <==> X(cId, dId) in DeclaredVars(fm.model.decls)
  {
    var fm := FeasibilityOf(crew, duties, eligible, conflicts);
    var d2 := RosteringExtraDecls(crew, duties, fm.x);
    var c2 := RosteringExtraConstraints(crew, duties, fm.x);
    SatisfiesPrefix(fm.model.decls, d2, fm.model.constraints, c2, Some([Term(MaxLoad, 1), Term(MinLoad, -1)]), a);
    ExtraDeclsNoX(crew, duties, fm.x);
  }

  /** A solution of the rostering model meets the feasibility model's domains and constraints, and fits its `x` dict. */
  lemma RosteringContainsFeasibility(crew: seq<CrewMember>, duties: seq<Duty>, eligible: map<PairKey, bool>, conflicts: seq<(string, string)>, a: Assignment)
    requires Satisfies(RosteringOf(crew, duties, eligible, conflicts).model, a)
    ensures var fm := FeasibilityOf(crew, duties, eligible, conflicts);
      Fits(fm.x, a) && InDomain(fm.model.decls, a) && AllHold(fm.model.constraints, a)
  {
    var fm := FeasibilityOf(crew, duties, eligible, conflicts);
    RosteringContainsFeasibilityModel(crew, duties, eligible, conflicts, a);
    FeasibilityVariables(crew, duties, eligible, conflicts);
    forall cId, dId | X(cId, dId) in a ensures 0 <= a[X(cId, dId)] <= 1 {
      var k :| 0 <= k < |fm.model.decls| && fm.model.decls[k].v == X(cId, dId);
    }
  }

  /** With distinct ids, every solution of the rostering model is a feasible roster on its `x` variables. */
  lemma RosteringFeasible(crew: seq<CrewMember>, duties: seq<Duty>, eligible: map<PairKey, bool>, conflicts: seq<(string, string)>, a: Assignment)
    requires Distinct(CrewIds(crew)) && Distinct(DutyIds(duties))
    requires Satisfies(RosteringOf(crew, duties, eligible, conflicts).model, a)
    ensures FeasibleRoster(crew, duties, eligible, conflicts, a)
  {
    RosteringContainsFeasibility(crew, duties, eligible, conflicts, a);
    ConstraintsMeaning(crew, duties, eligible, conflicts, a);
    FeasibilityVariables(crew, duties, eligible, conflicts);
  }

  /** A solution of the rostering model meets the workload and load declarations and constraints. */
  lemma RosteringExtraHolds(crew: seq<CrewMember>, duties: seq<Duty>, eligible: map<PairKey, bool>, conflicts: seq<(string, string)>, a: Assignment)
    requires Satisfies(RosteringOf(crew, duties, eligible, conflicts).model, a)
    ensures var x := FeasibilityOf(crew, duties, eligible, conflicts).x;
      InDomain(RosteringExtraDecls(crew, duties, x), a) && AllHold(RosteringExtraConstraints(crew, duties, x), a)
  {
    var fm := FeasibilityOf(crew, duties, eligible, conflicts);
    var d2 := RosteringExtraDecls(crew, duties, fm.x);
    var c2 := RosteringExtraConstraints(crew, duties, fm.x);
    SatisfiesPrefix(fm.model.decls, d2, fm.model.constraints, c2, Some([Term(MaxLoad, 1), Term(MinLoad, -1)]), a);
  }

  /** Where the workload declarations and constraints hold, crew member `i`'s workload is the sum of its terms, within [0, max_minutes]. */
  lemma WorkloadHolds(crew: seq<CrewMember>, duties: seq<Duty>, x: seq<PairKey>, a: Assignment, i: int)
    requires Distinct(CrewIds(crew))
    requires InDomain(RosteringExtraDecls(crew, duties, x), a) && AllHold(RosteringExtraConstraints(crew, duties, x), a)
    requires 0 <= i < |crew|
    ensures KeysOf(DutyIds(duties), DutyById(duties))
    ensures Value(a, TotalMinutes(crew[i].crewId)) == LinearValue(WorkloadTerms(crew[i].crewId, DutyIds(duties), DutyById(duties), x), a)
    ensures 0 <= Value(a, TotalMinutes(crew[i].crewId)) <= crew[i].maxMinutes
  {
    CrewKeys(crew);
    DutyKeys(duties);
    CrewByIdDistinct(crew);
    var crewIds, dutyIds := CrewIds(crew), DutyIds(duties);
    var w := WorkloadOf(crewIds, CrewById(crew), dutyIds, DutyById(duties), x);
    WorkloadLayout(crewIds, CrewById(crew), dutyIds, DutyById(duties), x);
    var t := TotalMinutes(crew[i].crewId);
    var extraDecls := RosteringExtraDecls(crew, duties, x);
    assert extraDecls[i] == w.decls[i];
    var extraCons := RosteringExtraConstraints(crew, duties, x);
    assert extraCons[2 * i] == w.constraints[2 * i];
    assert Holds(extraCons[2 * i], a);
    assert LinearValue([Term(t, 1)], a) == Value(a, t) by {
      assert [Term(t, 1)][..0] == [];
    }
  }

  /**
   * In a solution, crew member `i`'s workload is the total duration of the
   * duties they work, and lies between 0 and their maximum minutes.
   */
  lemma Workloads(crew: seq<CrewMember>, duties: seq<Duty>, eligible: map<PairKey, bool>, conflicts: seq<(string, string)>, a: Assignment, i: int)
    requires Distinct(CrewIds(crew)) && Distinct(DutyIds(duties))
    requires Satisfies(RosteringOf(crew, duties, eligible, conflicts).model, a)
    requires 0 <= i < |crew|
    ensures Value(a, TotalMinutes(crew[i].crewId)) == WorkedMinutes(crew[i].crewId, duties, a)
    ensures 0 <= Value(a, TotalMinutes(crew[i].crewId)) <= crew[i].maxMinutes
  {
    var x := FeasibilityOf(crew, duties, eligible, conflicts).x;
    RosteringExtraHolds(crew, duties, eligible, conflicts, a);
    RosteringContainsFeasibility(crew, duties, eligible, conflicts, a);
    WorkloadHolds(crew, duties, x, a, i);
    DutyByIdDistinct(duties);
    WorkloadTermsValue(crew[i].crewId, duties, DutyById(duties), x, a);
  }

  /** The fairness tail of a model: `max_load`/`min_load` over `totals`, both with domain 0..cap, and the spread objective. */
  predicate FairnessTail(m: CpModel, totals: seq<Var>, cap: int) {
    && |m.constraints| >= 2
    && m.constraints[|m.constraints| - 2] == MaxEquality(MaxLoad, totals)
    && m.constraints[|m.constraints| - 1] == MinEquality(MinLoad, totals)
    && |m.decls| >= 2
    && m.decls[|m.decls| - 2] == Decl(MaxLoad, 0, cap)
    && m.decls[|m.decls| - 1] == Decl(MinLoad, 0, cap)
    && m.objective == Some([Term(MaxLoad, 1), Term(MinLoad, -1)])
  }

  lemma LoadBounds(m: CpModel, totals: seq<Var>, cap: int, a: Assignment)
    requires FairnessTail(m, totals, cap) && Satisfies(m, a)
    ensures totals != []
    ensures exists k :: 0 <= k < |totals| && Value(a, totals[k]) == Value(a, MaxLoad)
    ensures forall k :: 0 <= k < |totals| ==> Value(a, totals[k]) <= Value(a, MaxLoad)
    ensures exists k :: 0 <= k < |totals| && Value(a, totals[k]) == Value(a, MinLoad)
    ensures forall k :: 0 <= k < |totals| ==> Value(a, MinLoad) <= Value(a, totals[k])
    ensures 0 <= Value(a, MinLoad) <= Value(a, MaxLoad) <= cap
    ensures ObjectiveValue(m, a) == Value(a, MaxLoad) - Value(a, MinLoad)
  {
    var n := |m.constraints|;
    assert Holds(m.constraints[n - 2], a) && Holds(m.constraints[n - 1], a);
    var k :| 0 <= k < |totals| && Value(a, totals[k]) == Value(a, MaxLoad);
    assert Value(a, MinLoad) <= Value(a, totals[k]);
    var obj := [Term(MaxLoad, 1), Term(MinLoad, -1)];
    assert obj[..1] == [obj[0]] && [obj[0]][..0] == [];
    assert LinearValue([obj[0]], a) == Value(a, MaxLoad);
  }

  /** `total_vars_list`: one workload variable per crew member, in crew order. */
  function CrewTotals(crew: seq<CrewMember>): (totals: seq<Var>)
    ensures |totals| == |crew|
    ensures forall i :: 0 <= i < |crew| ==> totals[i] == TotalMinutes(crew[i].crewId)
  {
    seq(|crew|, i requires 0 <= i < |crew| => TotalMinutes(crew[i].crewId))
  }

  /** The rostering model ends with the fairness tail over the crew's workload variables. */
  lemma RosteringTail(crew: seq<CrewMember>, duties: seq<Duty>, eligible: map<PairKey, bool>, conflicts: seq<(string, string)>)
    ensures FairnessTail(RosteringOf(crew, duties, eligible, conflicts).model, CrewTotals(crew), MaxCap(crew))
  {
    var fm := FeasibilityOf(crew, duties, eligible, conflicts);
    CrewKeys(crew);
    DutyKeys(duties);
    var crewIds, dutyIds := CrewIds(crew), DutyIds(duties);
    var w := WorkloadOf(crewIds, CrewById(crew), dutyIds, DutyById(duties), fm.x);
    WorkloadLayout(crewIds, CrewById(crew), dutyIds, DutyById(duties), fm.x);
    assert w.totals == CrewTotals(crew);
  }

  /** In a solution the crew is not empty and `max_load` is the largest workload. */
  lemma MaxLoadIsLargest(crew: seq<CrewMember>, duties: seq<Duty>, eligible: map<PairKey, bool>, conflicts: seq<(string, string)>, a: Assignment)
    requires Satisfies(RosteringOf(crew, duties, eligible, conflicts).model, a)
    ensures crew != []
    ensures exists i :: 0 <= i < |crew| && Value(a, MaxLoad) == Value(a, TotalMinutes(crew[i].crewId))
    ensures forall i :: 0 <= i < |crew| ==> Value(a, TotalMinutes(crew[i].crewId)) <= Value(a, MaxLoad)
  {
    RosteringTail(crew, duties, eligible, conflicts);
    LoadBounds(RosteringOf(crew, duties, eligible, conflicts).model, CrewTotals(crew), MaxCap(crew), a);
    var k :| 0 <= k < |crew| && Value(a, CrewTotals(crew)[k]) == Value(a, MaxLoad);
    assert Value(a, MaxLoad) == Value(a, TotalMinutes(crew[k].crewId));
  }

  /** In a solution `min_load` is the smallest workload. */
  lemma MinLoadIsSmallest(crew: seq<CrewMember>, duties: seq<Duty>, eligible: map<PairKey, bool>, conflicts: seq<(string, string)>, a: Assignment)
    requires Satisfies(RosteringOf(crew, duties, eligible, conflicts).model, a)
    ensures exists i :: 0 <= i < |crew| && Value(a, MinLoad) == Value(a, TotalMinutes(crew[i].crewId))
    ensures forall i :: 0 <= i < |crew| ==> Value(a, MinLoad) <= Value(a, TotalMinutes(crew[i].crewId))
  {
    RosteringTail(crew, duties, eligible, conflicts);
    LoadBounds(RosteringOf(crew, duties, eligible, conflicts).model, CrewTotals(crew), MaxCap(crew), a);
    var k :| 0 <= k < |crew| && Value(a, CrewTotals(crew)[k]) == Value(a, MinLoad);
    assert Value(a, MinLoad) == Value(a, TotalMinutes(crew[k].crewId));
  }

  /** Both loads lie in [0, max_cap] and the objective `max_load - min_load` is their spread, never negative. */
  lemma LoadsSpread(crew: seq<CrewMember>, duties: seq<Duty>, eligible: map<PairKey, bool>, conflicts: seq<(string, string)>, a: Assignment)
    requires Satisfies(RosteringOf(crew, duties, eligible, conflicts).model, a)
    ensures 0 <= Value(a, MinLoad) <= Value(a, MaxLoad) <= MaxCap(crew)
    ensures ObjectiveValue(RosteringOf(crew, duties, eligible, conflicts).model, a) == Value(a, MaxLoad) - Value(a, MinLoad) >= 0
  {
    RosteringTail(crew, duties, eligible, conflicts);
    LoadBounds(RosteringOf(crew, duties, eligible, conflicts).model, CrewTotals(crew), MaxCap(crew), a);
  }

  lemma {:induction false} WorkedMinutesIdle(cId: string, duties: seq<Duty>, a: Assignment)
    requires forall j :: 0 <= j < |duties| ==> X(cId, duties[j].dutyId) !in a
    ensures WorkedMinutes(cId, duties, a) == 0
    decreases |duties|
  {
    if duties != [] {
      WorkedMinutesIdle(cId, duties[..|duties| - 1], a);
    }
  }

  /**
   * A crew member eligible for no duty has workload 0, so in every
   * solution `min_load` is 0 as soon as such a crew member exists.
   */
  lemma IdleCrewMinLoad(crew: seq<CrewMember>, duties: seq<Duty>, eligible: map<PairKey, bool>, conflicts: seq<(string, string)>, a: Assignment, i: int)
    requires Distinct(CrewIds(crew)) && Distinct(DutyIds(duties))
    requires Satisfies(RosteringOf(crew, duties, eligible, conflicts).model, a)
    requires 0 <= i < |crew|
    requires forall j :: 0 <= j < |duties| ==> !EligibleGet(eligible, crew[i].crewId, duties[j].dutyId)
    ensures Value(a, TotalMinutes(crew[i].crewId)) == 0
    ensures Value(a, MinLoad) == 0
  {
    RosteringFeasible(crew, duties, eligible, conflicts, a);
    forall j | 0 <= j < |duties| ensures X(crew[i].crewId, duties[j].dutyId) !in a {
      assert !HasVar(crew, duties, eligible, crew[i].crewId, duties[j].dutyId);
    }
    WorkedMinutesIdle(crew[i].crewId, duties, a);
    Workloads(crew, duties, eligible, conflicts, a, i);
    MinLoadIsSmallest(crew, duties, eligible, conflicts, a);
    LoadsSpread(crew, duties, eligible, conflicts, a);
  }
}

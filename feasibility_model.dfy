/**
 * The feasibility-only rostering model: one 0/1 variable per eligible
 * (crew, duty) pair, an exact head count per duty and role, and mutual
 * exclusion of conflicting duties for each crew member.  The builder is
 * written as the loops that emit the model; what the emitted model means
 * is stated as a declarative roster predicate and proved equivalent.
 */
module FeasibilityModel {
  import opened Wrappers
  import opened Domain
  import opened Eligibility
  import opened ConstraintModel
  import CoverageCheck
  import ValidateCrewDuties

  // ------------------------------------------------------------ lookups

  /** `{c.crew_id: c for c in crew}`: the last member with an id wins. */
  function CrewById(crew: seq<CrewMember>): (m: map<string, CrewMember>)
    ensures forall i :: 0 <= i < |crew| ==> crew[i].crewId in m
    decreases |crew|
  {
    if crew == [] then map[]
    else CrewById(crew[..|crew| - 1])[crew[|crew| - 1].crewId := crew[|crew| - 1]]
  }

  /** `{d.duty_id: d for d in duties}`: the last duty with an id wins. */
  function DutyById(duties: seq<Duty>): (m: map<string, Duty>)
    ensures forall j :: 0 <= j < |duties| ==> duties[j].dutyId in m
    decreases |duties|
  {
    if duties == [] then map[]
    else DutyById(duties[..|duties| - 1])[duties[|duties| - 1].dutyId := duties[|duties| - 1]]
  }

  lemma {:induction false} CrewByIdDistinct(crew: seq<CrewMember>)
    requires Distinct(CrewIds(crew))
    ensures forall i :: 0 <= i < |crew| ==> CrewById(crew)[crew[i].crewId] == crew[i]
    decreases |crew|
  {
    if crew != [] {
      var init := crew[..|crew| - 1];
      assert CrewIds(init) == CrewIds(crew)[..|crew| - 1];
      CrewByIdDistinct(init);
    }
  }

  lemma {:induction false} DutyByIdDistinct(duties: seq<Duty>)
    requires Distinct(DutyIds(duties))
    ensures forall j :: 0 <= j < |duties| ==> DutyById(duties)[duties[j].dutyId] == duties[j]
    decreases |duties|
  {
    if duties != [] {
      var init := duties[..|duties| - 1];
      assert DutyIds(init) == DutyIds(duties)[..|duties| - 1];
      DutyByIdDistinct(init);
    }
  }

  /** Every id of `ids` is a key of the lookup map. */
  predicate KeysOf<V>(ids: seq<string>, m: map<string, V>) {
    forall k :: 0 <= k < |ids| ==> ids[k] in m
  }

  // ---------------------------------------------------------- variables

  /** The pairs `(cId, d_id)` that get a variable, in duty order. */
  function VarRow(cId: string, dutyIds: seq<string>, eligible: map<PairKey, bool>): seq<PairKey>
    decreases |dutyIds|
  {
    if dutyIds == [] then []
    else
      var dId := dutyIds[|dutyIds| - 1];
      VarRow(cId, dutyIds[..|dutyIds| - 1], eligible) + (if EligibleGet(eligible, cId, dId) then [(cId, dId)] else [])
  }

  /** Every `NewBoolVar` call of the double loop, in call order. */
  function VarPairs(crewIds: seq<string>, dutyIds: seq<string>, eligible: map<PairKey, bool>): seq<PairKey>
    decreases |crewIds|
  {
    if crewIds == [] then []
    else VarPairs(crewIds[..|crewIds| - 1], dutyIds, eligible) + VarRow(crewIds[|crewIds| - 1], dutyIds, eligible)
  }

  /** The keys of a dict written with `ps` in order: each key once, at its first write. */
  function DictKeys(ps: seq<PairKey>): seq<PairKey>
    decreases |ps|
  {
    if ps == [] then []
    else
      var ks := DictKeys(ps[..|ps| - 1]);
      if ps[|ps| - 1] in ks then ks else ks + [ps[|ps| - 1]]
  }

  /** One Boolean declaration per `NewBoolVar` call. */
  function BoolDecls(ps: seq<PairKey>): (ds: seq<Decl>)
    ensures |ds| == |ps|
    ensures forall i :: 0 <= i < |ps| ==> ds[i] == Decl(X(ps[i].0, ps[i].1), 0, 1)
    decreases |ps|
  {
    if ps == [] then []
    else BoolDecls(ps[..|ps| - 1]) + [Decl(X(ps[|ps| - 1].0, ps[|ps| - 1].1), 0, 1)]
  }

  lemma VarRowSnoc(cId: string, dutyIds: seq<string>, eligible: map<PairKey, bool>, j: int)
    requires 0 <= j < |dutyIds|
    ensures VarRow(cId, dutyIds[..j + 1], eligible) ==
      VarRow(cId, dutyIds[..j], eligible) + (if EligibleGet(eligible, cId, dutyIds[j]) then [(cId, dutyIds[j])] else [])
  {
    assert dutyIds[..j + 1][..j] == dutyIds[..j];
  }

  lemma VarPairsSnoc(crewIds: seq<string>, dutyIds: seq<string>, eligible: map<PairKey, bool>, i: int)
    requires 0 <= i < |crewIds|
    ensures VarPairs(crewIds[..i + 1], dutyIds, eligible) == VarPairs(crewIds[..i], dutyIds, eligible) + VarRow(crewIds[i], dutyIds, eligible)
  {
    assert crewIds[..i + 1][..i] == crewIds[..i];
  }

  lemma DeclsSnoc(ps: seq<PairKey>, p: PairKey)
    ensures BoolDecls(ps + [p]) == BoolDecls(ps) + [Decl(X(p.0, p.1), 0, 1)]
    ensures DictKeys(ps + [p]) == if p in DictKeys(ps) then DictKeys(ps) else DictKeys(ps) + [p]
  {
    assert (ps + [p])[..|ps|] == ps;
  }

  lemma AppendAssoc<T>(s1: seq<T>, s2: seq<T>, s3: seq<T>)
    ensures s1 + (s2 + s3) == (s1 + s2) + s3
  {
  }

  method DeclareVariables(crewIds: seq<string>, dutyIds: seq<string>, eligible: map<PairKey, bool>)
    returns (decls: seq<Decl>, x: seq<PairKey>)
    ensures decls == BoolDecls(VarPairs(crewIds, dutyIds, eligible))
    ensures x == DictKeys(VarPairs(crewIds, dutyIds, eligible))
  {
    decls, x := [], [];
    ghost var ps: seq<PairKey> := [];
    var i := 0;
    while i < |crewIds|
      invariant 0 <= i <= |crewIds|
      invariant ps == VarPairs(crewIds[..i], dutyIds, eligible)
      invariant decls == BoolDecls(ps) && x == DictKeys(ps)
    {
      var cId := crewIds[i];
      ghost var before := ps;
      var j := 0;
      while j < |dutyIds|
        invariant 0 <= j <= |dutyIds|
        invariant ps == before + VarRow(cId, dutyIds[..j], eligible)
        invariant decls == BoolDecls(ps) && x == DictKeys(ps)
      {
        var dId := dutyIds[j];
        VarRowSnoc(cId, dutyIds, eligible, j);
        if EligibleGet(eligible, cId, dId) {
          DeclsSnoc(ps, (cId, dId));
          decls := decls + [Decl(X(cId, dId), 0, 1)];
          if (cId, dId) !in x {
            x := x + [(cId, dId)];
          }
          AppendAssoc(before, VarRow(cId, dutyIds[..j], eligible), [(cId, dId)]);
          ps := ps + [(cId, dId)];
        } else {
          assert VarRow(cId, dutyIds[..j], eligible) + [] == VarRow(cId, dutyIds[..j], eligible);
        }
        j := j + 1;
      }
      VarPairsSnoc(crewIds, dutyIds, eligible, i);
      assert dutyIds[..|dutyIds|] == dutyIds;
      i := i + 1;
    }
    assert crewIds[..|crewIds|] == crewIds;
  }


  // ----------------------------------------------------------- coverage

  /** `vars_for_role`: the variables of the crew of `role` on duty `dId`, in crew order, each with coefficient 1. */
  function RoleTerms(crewIds: seq<string>, crewById: map<string, CrewMember>, x: seq<PairKey>, dId: string, role: string): seq<Term>
    requires KeysOf(crewIds, crewById)
    decreases |crewIds|
  {
    if crewIds == [] then []
    else
      var cId := crewIds[|crewIds| - 1];
      RoleTerms(crewIds[..|crewIds| - 1], crewById, x, dId, role) +
        (if crewById[cId].role == role && (cId, dId) in x then [Term(X(cId, dId), 1)] else [])
  }

  /** `sum(vars_for_role) == required_n` for the first entries `cov` of duty `dId`'s coverage. */
  function EntryConstraints(crewIds: seq<string>, crewById: map<string, CrewMember>, x: seq<PairKey>, dId: string, cov: seq<(string, int)>): seq<Constraint>
    requires KeysOf(crewIds, crewById)
    decreases |cov|
  {
    if cov == [] then []
    else
      var entry := cov[|cov| - 1];
      EntryConstraints(crewIds, crewById, x, dId, cov[..|cov| - 1]) +
        [Linear(RoleTerms(crewIds, crewById, x, dId, entry.0), Eq, [], entry.1)]
  }

  /** The coverage constraints of the duties `dutyIds`, duty after duty. */
  function CoverageConstraints(crewIds: seq<string>, crewById: map<string, CrewMember>, dutyIds: seq<string>, dutyById: map<string, Duty>, x: seq<PairKey>): seq<Constraint>
    requires KeysOf(crewIds, crewById) && KeysOf(dutyIds, dutyById)
    decreases |dutyIds|
  {
    if dutyIds == [] then []
    else
      var dId := dutyIds[|dutyIds| - 1];
      CoverageConstraints(crewIds, crewById, dutyIds[..|dutyIds| - 1], dutyById, x) +
        EntryConstraints(crewIds, crewById, x, dId, dutyById[dId].coverage)
  }

  method CollectRoleTerms(crewIds: seq<string>, crewById: map<string, CrewMember>, x: seq<PairKey>, dId: string, role: string)
    returns (terms: seq<Term>)
    requires KeysOf(crewIds, crewById)
    ensures terms == RoleTerms(crewIds, crewById, x, dId, role)
  {
    terms := [];
    var i := 0;
    while i < |crewIds|
      invariant 0 <= i <= |crewIds|
      invariant terms == RoleTerms(crewIds[..i], crewById, x, dId, role)
    {
      var cId := crewIds[i];
      assert crewIds[..i + 1][..i] == crewIds[..i];
      if crewById[cId].role == role && (cId, dId) in x {
        terms := terms + [Term(X(cId, dId), 1)];
      }
      i := i + 1;
    }
    assert crewIds[..|crewIds|] == crewIds;
  }

  lemma EntryConstraintsSnoc(crewIds: seq<string>, crewById: map<string, CrewMember>, x: seq<PairKey>, dId: string, cov: seq<(string, int)>, k: int)
    requires KeysOf(crewIds, crewById) && 0 <= k < |cov|
    ensures EntryConstraints(crewIds, crewById, x, dId, cov[..k + 1]) ==
      EntryConstraints(crewIds, crewById, x, dId, cov[..k]) + [Linear(RoleTerms(crewIds, crewById, x, dId, cov[k].0), Eq, [], cov[k].1)]
  {
    assert cov[..k + 1][..k] == cov[..k];
  }

  lemma CoverageConstraintsSnoc(crewIds: seq<string>, crewById: map<string, CrewMember>, dutyIds: seq<string>, dutyById: map<string, Duty>, x: seq<PairKey>, j: int)
    requires KeysOf(crewIds, crewById) && KeysOf(dutyIds, dutyById) && 0 <= j < |dutyIds|
    ensures KeysOf(dutyIds[..j], dutyById) && KeysOf(dutyIds[..j + 1], dutyById)
    ensures CoverageConstraints(crewIds, crewById, dutyIds[..j + 1], dutyById, x) ==
      CoverageConstraints(crewIds, crewById, dutyIds[..j], dutyById, x) + EntryConstraints(crewIds, crewById, x, dutyIds[j], dutyById[dutyIds[j]].coverage)
  {
    assert dutyIds[..j + 1][..j] == dutyIds[..j];
  }

  method AddCoverageConstraints(crewIds: seq<string>, crewById: map<string, CrewMember>, dutyIds: seq<string>, dutyById: map<string, Duty>, x: seq<PairKey>)
    returns (cs: seq<Constraint>)
    requires KeysOf(crewIds, crewById) && KeysOf(dutyIds, dutyById)
    ensures cs == CoverageConstraints(crewIds, crewById, dutyIds, dutyById, x)
  {
    cs := [];
    var j := 0;
    while j < |dutyIds|
      invariant 0 <= j <= |dutyIds|
      invariant cs == CoverageConstraints(crewIds, crewById, dutyIds[..j], dutyById, x)
    {
      var dId := dutyIds[j];
      var cov: seq<(string, int)> := dutyById[dId].coverage;
      ghost var before := cs;
      var k := 0;
      while k < |cov|
        invariant 0 <= k <= |cov|
        invariant cs == before + EntryConstraints(crewIds, crewById, x, dId, cov[..k])
      {
        var terms := CollectRoleTerms(crewIds, crewById, x, dId, cov[k].0);
        EntryConstraintsSnoc(crewIds, crewById, x, dId, cov, k);
        AppendAssoc(before, EntryConstraints(crewIds, crewById, x, dId, cov[..k]), [Linear(terms, Eq, [], cov[k].1)]);
        cs := cs + [Linear(terms, Eq, [], cov[k].1)];
        k := k + 1;
      }
      assert cov[..|cov|] == cov;
      CoverageConstraintsSnoc(crewIds, crewById, dutyIds, dutyById, x, j);
      j := j + 1;
    }
    assert dutyIds[..|dutyIds|] == dutyIds;
  }

  // ---------------------------------------------------------- conflicts

  /** `v1 + v2 <= 1` for crew member `cId` and each conflict pair whose two variables exist. */
  function ConflictRow(cId: string, conflicts: seq<(string, string)>, x: seq<PairKey>): seq<Constraint>
    decreases |conflicts|
  {
    if conflicts == [] then []
    else
      var p := conflicts[|conflicts| - 1];
      ConflictRow(cId, conflicts[..|conflicts| - 1], x) +
        (if (cId, p.0) in x && (cId, p.1) in x then [Linear([Term(X(cId, p.0), 1), Term(X(cId, p.1), 1)], Le, [], 1)] else [])
  }

  function ConflictConstraints(crewIds: seq<string>, conflicts: seq<(string, string)>, x: seq<PairKey>): seq<Constraint>
    decreases |crewIds|
  {
    if crewIds == [] then []
    else ConflictConstraints(crewIds[..|crewIds| - 1], conflicts, x) + ConflictRow(crewIds[|crewIds| - 1], conflicts, x)
  }

  method AddConflictConstraints(crewIds: seq<string>, conflicts: seq<(string, string)>, x: seq<PairKey>)
    returns (cs: seq<Constraint>)
    ensures cs == ConflictConstraints(crewIds, conflicts, x)
  {
    cs := [];
    var i := 0;
    while i < |crewIds|
      invariant 0 <= i <= |crewIds|
      invariant cs == ConflictConstraints(crewIds[..i], conflicts, x)
    {
      var cId := crewIds[i];
      ghost var before := cs;
      var p := 0;
      while p < |conflicts|
        invariant 0 <= p <= |conflicts|
        invariant cs == before + ConflictRow(cId, conflicts[..p], x)
      {
        var (d1, d2) := conflicts[p];
        assert conflicts[..p + 1][..p] == conflicts[..p];
        if (cId, d1) in x && (cId, d2) in x {
          cs := cs + [Linear([Term(X(cId, d1), 1), Term(X(cId, d2), 1)], Le, [], 1)];
        }
        p := p + 1;
      }
      assert conflicts[..|conflicts|] == conflicts;
      assert crewIds[..i + 1][..i] == crewIds[..i];
      i := i + 1;
    }
    assert crewIds[..|crewIds|] == crewIds;
  }

  // ------------------------------------------------------------ builder

  /** `FeasibilityModel`: the emitted model and the keys of the `x` dict, in dict order. */
  datatype Feasibility = Feasibility(model: CpModel, x: seq<PairKey>)

  lemma CrewKeys(crew: seq<CrewMember>)
    ensures KeysOf(CrewIds(crew), CrewById(crew))
  {
  }

  lemma DutyKeys(duties: seq<Duty>)
    ensures KeysOf(DutyIds(duties), DutyById(duties))
  {
  }

  /** The keys of the `x` dict. */
  function VarKeys(crew: seq<CrewMember>, duties: seq<Duty>, eligible: map<PairKey, bool>): seq<PairKey> {
    DictKeys(VarPairs(CrewIds(crew), DutyIds(duties), eligible))
  }

  /** The `NewBoolVar` declarations. */
  function VarDecls(crew: seq<CrewMember>, duties: seq<Duty>, eligible: map<PairKey, bool>): seq<Decl> {
    BoolDecls(VarPairs(CrewIds(crew), DutyIds(duties), eligible))
  }

  /** The model `build_feasibility_model` emits. */
  function FeasibilityOf(crew: seq<CrewMember>, duties: seq<Duty>, eligible: map<PairKey, bool>, conflicts: seq<(string, string)>): Feasibility {
    var crewIds := CrewIds(crew);
    var dutyIds := DutyIds(duties);
    CrewKeys(crew);
    DutyKeys(duties);
    var x := VarKeys(crew, duties, eligible);
    Feasibility(
      CpModel(VarDecls(crew, duties, eligible),
              CoverageConstraints(crewIds, CrewById(crew), dutyIds, DutyById(duties), x) + ConflictConstraints(crewIds, conflicts, x),
              None),
      x)
  }

  method BuildFeasibilityModel(crew: seq<CrewMember>, duties: seq<Duty>, eligible: map<PairKey, bool>, conflicts: seq<(string, string)>)
    returns (fm: Feasibility)
    ensures fm == FeasibilityOf(crew, duties, eligible, conflicts)
  {
    var crewIds := CrewIds(crew);
    var dutyIds := DutyIds(duties);
    var crewById := CrewById(crew);
    var dutyById := DutyById(duties);
    var decls, x := DeclareVariables(crewIds, dutyIds, eligible);
    var coverage := AddCoverageConstraints(crewIds, crewById, dutyIds, dutyById, x);
    var exclusions := AddConflictConstraints(crewIds, conflicts, x);
    fm := Feasibility(CpModel(decls, coverage + exclusions, None), x);
  }

  // ------------------------------------------------------------ meaning

  /** The builder gives crew id `cId` a variable for duty id `dId`. */
  predicate HasVar(crew: seq<CrewMember>, duties: seq<Duty>, eligible: map<PairKey, bool>, cId: string, dId: string) {
    cId in CrewIds(crew) && dId in DutyIds(duties) && EligibleGet(eligible, cId, dId)
  }

  lemma {:induction false} VarRowMembers(cId: string, dutyIds: seq<string>, eligible: map<PairKey, bool>)
    ensures forall k :: k in VarRow(cId, dutyIds, eligible) <==> k.0 == cId && k.1 in dutyIds && EligibleGet(eligible, k.0, k.1)
    decreases |dutyIds|
  {
    if dutyIds != [] {
      var init := dutyIds[..|dutyIds| - 1];
      VarRowMembers(cId, init, eligible);
      assert dutyIds == init + [dutyIds[|dutyIds| - 1]];
    }
  }

  lemma {:induction false} VarPairsMembers(crewIds: seq<string>, dutyIds: seq<string>, eligible: map<PairKey, bool>)
    ensures forall k :: k in VarPairs(crewIds, dutyIds, eligible) <==> k.0 in crewIds && k.1 in dutyIds && EligibleGet(eligible, k.0, k.1)
    decreases |crewIds|
  {
    if crewIds != [] {
      var init := crewIds[..|crewIds| - 1];
      VarPairsMembers(init, dutyIds, eligible);
      VarRowMembers(crewIds[|crewIds| - 1], dutyIds, eligible);
      assert crewIds == init + [crewIds[|crewIds| - 1]];
    }
  }

  /** A dict's keys: the written keys, each exactly once. */
  lemma {:induction false} DictKeysSpec(ps: seq<PairKey>)
    ensures forall k :: k in DictKeys(ps) <==> k in ps
    ensures forall i, j :: 0 <= i < j < |DictKeys(ps)| ==> DictKeys(ps)[i] != DictKeys(ps)[j]
    decreases |ps|
  {
    if ps != [] {
      var init := ps[..|ps| - 1];
      DictKeysSpec(init);
      assert ps == init + [ps[|ps| - 1]];
    }
  }

  /** The `x` dict lists each eligible pair once; the declarations are 0/1 variables for exactly those pairs. */
  lemma VarsOfEligible(crew: seq<CrewMember>, duties: seq<Duty>, eligible: map<PairKey, bool>)
    ensures var x := VarKeys(crew, duties, eligible);
      && (forall k :: k in x <==> HasVar(crew, duties, eligible, k.0, k.1))
      && (forall i, j :: 0 <= i < j < |x| ==> x[i] != x[j])
    ensures var decls := VarDecls(crew, duties, eligible);
      && (forall v :: v in DeclaredVars(decls) <==> v.X? && HasVar(crew, duties, eligible, v.crewId, v.dutyId))
      && (forall i :: 0 <= i < |decls| ==> decls[i].lo == 0 && decls[i].hi == 1)
  {
    var ps := VarPairs(CrewIds(crew), DutyIds(duties), eligible);
    VarPairsMembers(CrewIds(crew), DutyIds(duties), eligible);
    DictKeysSpec(ps);
    var decls := BoolDecls(ps);
    forall v ensures v in DeclaredVars(decls) <==> v.X? && HasVar(crew, duties, eligible, v.crewId, v.dutyId) {
      if v.X? && HasVar(crew, duties, eligible, v.crewId, v.dutyId) {
        var i :| 0 <= i < |ps| && ps[i] == (v.crewId, v.dutyId);
        assert decls[i].v == v;
      }
    }
  }

  /**
   * Variables exist exactly for the eligible (crew id, duty id) pairs, as
   * 0/1 variables; ineligible pairs get none.  The `x` dict lists each such
   * pair once, and the model has no objective.
   */
  lemma FeasibilityVariables(crew: seq<CrewMember>, duties: seq<Duty>, eligible: map<PairKey, bool>, conflicts: seq<(string, string)>)
    ensures var fm := FeasibilityOf(crew, duties, eligible, conflicts);
      && (forall k :: k in fm.x <==> HasVar(crew, duties, eligible, k.0, k.1))
      && (forall i, j :: 0 <= i < j < |fm.x| ==> fm.x[i] != fm.x[j])
      && (forall v :: v in DeclaredVars(fm.model.decls) <==> v.X? && HasVar(crew, duties, eligible, v.crewId, v.dutyId))
      && (forall i :: 0 <= i < |fm.model.decls| ==> fm.model.decls[i].lo == 0 && fm.model.decls[i].hi == 1)
      && fm.model.objective == None
  {
    VarsOfEligible(crew, duties, eligible);
  }

  /** The crew members of `role` that `a` puts on duty `dId`. */
  function AssignedOfRole(crew: seq<CrewMember>, dId: string, role: string, a: Assignment): set<string> {
    set i | 0 <= i < |crew| && crew[i].role == role && Value(a, X(crew[i].crewId, dId)) == 1 :: crew[i].crewId
  }

  /** Exactly the required number of crew of the entry's role work duty `dId`. */
  predicate EntryMet(crew: seq<CrewMember>, dId: string, entry: (string, int), a: Assignment) {
    |AssignedOfRole(crew, dId, entry.0, a)| == entry.1
  }

  /** Every entry of coverage `cov` is met on duty `dId`. */
  predicate EntriesMet(crew: seq<CrewMember>, dId: string, cov: seq<(string, int)>, a: Assignment) {
    forall k :: 0 <= k < |cov| ==> EntryMet(crew, dId, cov[k], a)
  }

  /** For each role of duty `d`'s coverage, exactly the required number of crew of that role work it. */
  predicate DutyCovered(crew: seq<CrewMember>, d: Duty, a: Assignment) {
    EntriesMet(crew, d.dutyId, d.coverage, a)
  }

  /** Every duty is covered. */
  predicate CoverageMet(crew: seq<CrewMember>, duties: seq<Duty>, a: Assignment) {
    forall j :: 0 <= j < |duties| ==> DutyCovered(crew, duties[j], a)
  }

  /** Crew member `cId` does not work both duties of the conflicting pair `p`. */
  predicate PairRespected(cId: string, p: (string, string), a: Assignment) {
    Value(a, X(cId, p.0)) + Value(a, X(cId, p.1)) <= 1
  }

  /** Crew member `cId` works no two duties of a conflicting pair. */
  predicate RowRespected(cId: string, conflicts: seq<(string, string)>, a: Assignment) {
    forall p :: 0 <= p < |conflicts| ==> PairRespected(cId, conflicts[p], a)
  }

  /** No crew member works both duties of a conflicting pair. */
  predicate ConflictsRespected(crew: seq<CrewMember>, conflicts: seq<(string, string)>, a: Assignment) {
    forall i :: 0 <= i < |crew| ==> RowRespected(crew[i].crewId, conflicts, a)
  }

  /**
   * A feasible roster, stated directly on the assignment variables: a 0/1
   * value for exactly the eligible pairs, exact head counts per duty and
   * role, and no crew member on two conflicting duties.
   */
  ghost predicate FeasibleRoster(crew: seq<CrewMember>, duties: seq<Duty>, eligible: map<PairKey, bool>, conflicts: seq<(string, string)>, a: Assignment) {
    && (forall cId, dId :: X(cId, dId) in a <==> HasVar(crew, duties, eligible, cId, dId))
    && (forall cId, dId :: X(cId, dId) in a ==> 0 <= a[X(cId, dId)] <= 1)
    && CoverageMet(crew, duties, a)
    && ConflictsRespected(crew, conflicts, a)
  }

  /** `a` has a variable for exactly the pairs of the dict `x`, each 0 or 1. */
  ghost predicate Fits(x: seq<PairKey>, a: Assignment) {
    (forall cId, dId :: (cId, dId) in x <==> X(cId, dId) in a) && (forall cId, dId :: X(cId, dId) in a ==> 0 <= a[X(cId, dId)] <= 1)
  }

  /** `crewById` finds each member of `crew` under its id. */
  predicate CrewLookup(crew: seq<CrewMember>, crewById: map<string, CrewMember>) {
    forall i :: 0 <= i < |crew| ==> crew[i].crewId in crewById && crewById[crew[i].crewId] == crew[i]
  }

  predicate DutyLookup(duties: seq<Duty>, dutyById: map<string, Duty>) {
    forall j :: 0 <= j < |duties| ==> duties[j].dutyId in dutyById && dutyById[duties[j].dutyId] == duties[j]
  }

  /** Adding one crew member to the list adds at most that member's id to the assigned set. */
  lemma AssignedOfRoleStep(pre: seq<CrewMember>, dId: string, role: string, a: Assignment)
    requires pre != []
    ensures var c := pre[|pre| - 1];
      AssignedOfRole(pre, dId, role, a) ==
        AssignedOfRole(pre[..|pre| - 1], dId, role, a) +
          (if c.role == role && Value(a, X(c.crewId, dId)) == 1 then {c.crewId} else {})
  {
    var init := pre[..|pre| - 1];
    assert forall i :: 0 <= i < |init| ==> init[i] == pre[i];
  }

  /** With distinct ids, the last member's id is not among the ids before it. */
  lemma LastIdFresh(pre: seq<CrewMember>, dId: string, role: string, a: Assignment)
    requires pre != [] && Distinct(CrewIds(pre))
    ensures pre[|pre| - 1].crewId !in AssignedOfRole(pre[..|pre| - 1], dId, role, a)
  {
    var init := pre[..|pre| - 1];
    forall i | 0 <= i < |init| ensures init[i].crewId != pre[|pre| - 1].crewId {
      assert CrewIds(pre)[i] == init[i].crewId;
    }
  }

  /** With distinct crew ids, the sum of `vars_for_role` is the number of crew of the role on the duty. */
  lemma {:induction false} RoleTermsValue(pre: seq<CrewMember>, crewById: map<string, CrewMember>, x: seq<PairKey>, dId: string, role: string, a: Assignment)
    requires Distinct(CrewIds(pre)) && CrewLookup(pre, crewById) && Fits(x, a)
    ensures KeysOf(CrewIds(pre), crewById)
    ensures LinearValue(RoleTerms(CrewIds(pre), crewById, x, dId, role), a) == |AssignedOfRole(pre, dId, role, a)|
    decreases |pre|
  {
    if pre != [] {
      var init := pre[..|pre| - 1];
      var c := pre[|pre| - 1];
      assert CrewIds(init) == CrewIds(pre)[..|pre| - 1];
      RoleTermsValue(init, crewById, x, dId, role, a);
      var t := if c.role == role && (c.crewId, dId) in x then [Term(X(c.crewId, dId), 1)] else [];
      assert RoleTerms(CrewIds(pre), crewById, x, dId, role) == RoleTerms(CrewIds(init), crewById, x, dId, role) + t;
      LinearValueAppend(RoleTerms(CrewIds(init), crewById, x, dId, role), t, a);
      AssignedOfRoleStep(pre, dId, role, a);
      LastIdFresh(pre, dId, role, a);
      assert LinearValue(t, a) == if c.role == role && Value(a, X(c.crewId, dId)) == 1 then 1 else 0;
    }
  }

  /** One coverage constraint holds iff its entry is met. */
  lemma EntryConstraintHolds(crew: seq<CrewMember>, crewById: map<string, CrewMember>, x: seq<PairKey>, dId: string, entry: (string, int), a: Assignment)
    requires Distinct(CrewIds(crew)) && CrewLookup(crew, crewById) && Fits(x, a)
    ensures KeysOf(CrewIds(crew), crewById)
    ensures Holds(Linear(RoleTerms(CrewIds(crew), crewById, x, dId, entry.0), Eq, [], entry.1), a) <==> EntryMet(crew, dId, entry, a)
  {
    RoleTermsValue(crew, crewById, x, dId, entry.0, a);
    assert LinearValue([], a) == 0;
  }

  lemma EntriesMetSnoc(crew: seq<CrewMember>, dId: string, cov: seq<(string, int)>, a: Assignment)
    requires cov != []
    ensures EntriesMet(crew, dId, cov, a) <==> EntriesMet(crew, dId, cov[..|cov| - 1], a) && EntryMet(crew, dId, cov[|cov| - 1], a)
  {
    assert forall k :: 0 <= k < |cov| - 1 ==> cov[..|cov| - 1][k] == cov[k];
  }

  lemma {:induction false} EntryConstraintsHold(crew: seq<CrewMember>, crewById: map<string, CrewMember>, x: seq<PairKey>, dId: string, cov: seq<(string, int)>, a: Assignment)
    requires Distinct(CrewIds(crew)) && CrewLookup(crew, crewById) && Fits(x, a)
    ensures KeysOf(CrewIds(crew), crewById)
    ensures AllHold(EntryConstraints(CrewIds(crew), crewById, x, dId, cov), a) <==> EntriesMet(crew, dId, cov, a)
    decreases |cov|
  {
    RoleTermsValue(crew, crewById, x, dId, "", a);
    if cov != [] {
      var init := cov[..|cov| - 1];
      var entry := cov[|cov| - 1];
      EntryConstraintsHold(crew, crewById, x, dId, init, a);
      EntryConstraintHolds(crew, crewById, x, dId, entry, a);
      AllHoldSnoc(EntryConstraints(CrewIds(crew), crewById, x, dId, init), Linear(RoleTerms(CrewIds(crew), crewById, x, dId, entry.0), Eq, [], entry.1), a);
      EntriesMetSnoc(crew, dId, cov, a);
    }
  }

  lemma {:induction false} CoverageConstraintsHold(crew: seq<CrewMember>, crewById: map<string, CrewMember>, pre: seq<Duty>, dutyById: map<string, Duty>, x: seq<PairKey>, a: Assignment)
    requires Distinct(CrewIds(crew)) && CrewLookup(crew, crewById) && Fits(x, a)
    requires DutyLookup(pre, dutyById)
    ensures KeysOf(CrewIds(crew), crewById) && KeysOf(DutyIds(pre), dutyById)
    ensures AllHold(CoverageConstraints(CrewIds(crew), crewById, DutyIds(pre), dutyById, x), a) <==> CoverageMet(crew, pre, a)
    decreases |pre|
  {
    RoleTermsValue(crew, crewById, x, "", "", a);
    if pre != [] {
      assert CoverageMet(crew, pre, a) <==> CoverageMet(crew, pre[..|pre| - 1], a) && DutyCovered(crew, pre[|pre| - 1], a);
      var init := pre[..|pre| - 1];
      var d := pre[|pre| - 1];
      assert DutyIds(init) == DutyIds(pre)[..|pre| - 1];
      CoverageConstraintsHold(crew, crewById, init, dutyById, x, a);
      EntryConstraintsHold(crew, crewById, x, d.dutyId, d.coverage, a);
      AllHoldAppend(CoverageConstraints(CrewIds(crew), crewById, DutyIds(init), dutyById, x),
                    EntryConstraints(CrewIds(crew), crewById, x, d.dutyId, d.coverage), a);
    }
  }

  lemma {:induction false} ConflictRowHold(cId: string, conflicts: seq<(string, string)>, x: seq<PairKey>, a: Assignment)
    requires Fits(x, a)
    ensures AllHold(ConflictRow(cId, conflicts, x), a) <==> RowRespected(cId, conflicts, a)
    decreases |conflicts|
  {
    if conflicts != [] {
      var init := conflicts[..|conflicts| - 1];
      var p := conflicts[|conflicts| - 1];
      ConflictRowHold(cId, init, x, a);
      var t := [Term(X(cId, p.0), 1), Term(X(cId, p.1), 1)];
      assert LinearValue(t, a) == Value(a, X(cId, p.0)) + Value(a, X(cId, p.1)) by {
        assert t[..1] == [t[0]] && [t[0]][..0] == [];
        assert LinearValue([t[0]], a) == Value(a, X(cId, p.0));
        assert LinearValue(t, a) == LinearValue(t[..1], a) + Value(a, X(cId, p.1));
      }
      var last := if (cId, p.0) in x && (cId, p.1) in x then [Linear(t, Le, [], 1)] else [];
      AllHoldAppend(ConflictRow(cId, init, x), last, a);
      assert AllHold(last, a) <==> PairRespected(cId, p, a);
      assert RowRespected(cId, conflicts, a) <==> RowRespected(cId, init, a) && PairRespected(cId, p, a) by {
        assert forall q :: 0 <= q < |init| ==> init[q] == conflicts[q];
      }
    }
  }

  lemma {:induction false} ConflictConstraintsHold(pre: seq<CrewMember>, conflicts: seq<(string, string)>, x: seq<PairKey>, a: Assignment)
    requires Fits(x, a)
    ensures AllHold(ConflictConstraints(CrewIds(pre), conflicts, x), a) <==> ConflictsRespected(pre, conflicts, a)
    decreases |pre|
  {
    if pre != [] {
      var init := pre[..|pre| - 1];
      var c := pre[|pre| - 1];
      assert CrewIds(init) == CrewIds(pre)[..|pre| - 1];
      ConflictConstraintsHold(init, conflicts, x, a);
      ConflictRowHold(c.crewId, conflicts, x, a);
      AllHoldAppend(ConflictConstraints(CrewIds(init), conflicts, x), ConflictRow(c.crewId, conflicts, x), a);
      assert ConflictsRespected(pre, conflicts, a) <==> ConflictsRespected(init, conflicts, a) && RowRespected(c.crewId, conflicts, a) by {
        assert forall i :: 0 <= i < |init| ==> init[i] == pre[i];
      }
    }
  }

  /** `a` values exactly the eligible pairs' variables, each 0 or 1. */
  ghost predicate BinaryOnEligible(crew: seq<CrewMember>, duties: seq<Duty>, eligible: map<PairKey, bool>, a: Assignment) {
    && (forall v :: v in a <==> v.X? && HasVar(crew, duties, eligible, v.crewId, v.dutyId))
    && (forall v :: v in a ==> 0 <= a[v] <= 1)
  }

  lemma BinaryOnEligibleMeaning(crew: seq<CrewMember>, duties: seq<Duty>, eligible: map<PairKey, bool>, a: Assignment)
    ensures BinaryOnEligible(crew, duties, eligible, a) <==>
      && (forall v :: v in a ==> v.X?)
      && (forall cId, dId :: X(cId, dId) in a <==> HasVar(crew, duties, eligible, cId, dId))
      && (forall cId, dId :: X(cId, dId) in a ==> 0 <= a[X(cId, dId)] <= 1)
  {
    if (forall v :: v in a ==> v.X?) && (forall cId, dId :: X(cId, dId) in a ==> 0 <= a[X(cId, dId)] <= 1) {
      forall v | v in a ensures 0 <= a[v] <= 1 {
        assert v == X(v.crewId, v.dutyId);
      }
    }
  }

  /** The declarations admit exactly the 0/1 assignments of the eligible pairs. */
  lemma DomainMeaning(crew: seq<CrewMember>, duties: seq<Duty>, eligible: map<PairKey, bool>, a: Assignment)
    ensures var decls := VarDecls(crew, duties, eligible);
      (a.Keys == DeclaredVars(decls) && InDomain(decls, a)) <==> BinaryOnEligible(crew, duties, eligible, a)
  {
    VarsOfEligible(crew, duties, eligible);
    var decls := VarDecls(crew, duties, eligible);
    if a.Keys == DeclaredVars(decls) && InDomain(decls, a) {
      forall v | v in a ensures 0 <= a[v] <= 1 {
        var i :| 0 <= i < |decls| && decls[i].v == v;
      }
    }
  }

  /** A 0/1 assignment of the eligible pairs fits the `x` dict. */
  lemma BinaryFits(crew: seq<CrewMember>, duties: seq<Duty>, eligible: map<PairKey, bool>, a: Assignment)
    requires BinaryOnEligible(crew, duties, eligible, a)
    ensures Fits(VarKeys(crew, duties, eligible), a)
  {
    VarsOfEligible(crew, duties, eligible);
  }

  /** Under a 0/1 assignment of the eligible pairs, the constraints say: coverage met and conflicts respected. */
  lemma ConstraintsMeaning(crew: seq<CrewMember>, duties: seq<Duty>, eligible: map<PairKey, bool>, conflicts: seq<(string, string)>, a: Assignment)
    requires Distinct(CrewIds(crew)) && Distinct(DutyIds(duties))
    requires Fits(FeasibilityOf(crew, duties, eligible, conflicts).x, a)
    ensures AllHold(FeasibilityOf(crew, duties, eligible, conflicts).model.constraints, a) <==>
      CoverageMet(crew, duties, a) && ConflictsRespected(crew, conflicts, a)
  {
    var x := FeasibilityOf(crew, duties, eligible, conflicts).x;
    CrewByIdDistinct(crew);
    DutyByIdDistinct(duties);
    CrewKeys(crew);
    DutyKeys(duties);
    var cov := CoverageConstraints(CrewIds(crew), CrewById(crew), DutyIds(duties), DutyById(duties), x);
    var conf := ConflictConstraints(CrewIds(crew), conflicts, x);
    AllHoldAppend(cov, conf, a);
    CoverageConstraintsHold(crew, CrewById(crew), duties, DutyById(duties), x, a);
    ConflictConstraintsHold(crew, conflicts, x, a);
  }

  /**
   * With distinct crew ids and distinct duty ids, the emitted model accepts
   * exactly the feasible rosters (which value no other variable).
   */
  lemma FeasibilitySemantics(crew: seq<CrewMember>, duties: seq<Duty>, eligible: map<PairKey, bool>, conflicts: seq<(string, string)>, a: Assignment)
    requires Distinct(CrewIds(crew)) && Distinct(DutyIds(duties))
    ensures Satisfies(FeasibilityOf(crew, duties, eligible, conflicts).model, a) <==>
      (forall v :: v in a ==> v.X?) && FeasibleRoster(crew, duties, eligible, conflicts, a)
  {
    var fm := FeasibilityOf(crew, duties, eligible, conflicts);
    assert fm.model.decls == VarDecls(crew, duties, eligible) && fm.x == VarKeys(crew, duties, eligible);
    DomainMeaning(crew, duties, eligible, a);
    BinaryOnEligibleMeaning(crew, duties, eligible, a);
    if BinaryOnEligible(crew, duties, eligible, a) {
      BinaryFits(crew, duties, eligible, a);
      ConstraintsMeaning(crew, duties, eligible, conflicts, a);
    }
  }

  /** A satisfying assignment never puts crew on a duty they are not eligible for: such pairs have no variable. */
  lemma NoIneligibleAssignment(crew: seq<CrewMember>, duties: seq<Duty>, eligible: map<PairKey, bool>, conflicts: seq<(string, string)>, a: Assignment)
    requires Satisfies(FeasibilityOf(crew, duties, eligible, conflicts).model, a)
    ensures forall v :: v in a ==> v.X? && EligibleGet(eligible, v.crewId, v.dutyId)
    ensures forall cId, dId :: !EligibleGet(eligible, cId, dId) ==> Value(a, X(cId, dId)) == 0
  {
    FeasibilityVariables(crew, duties, eligible, conflicts);
  }

  lemma {:induction false} SubsetCard(small: set<string>, big: set<string>)
    requires small <= big
    ensures |small| <= |big|
    decreases |small|
  {
    if small != {} {
      var e :| e in small;
      SubsetCard(small - {e}, big - {e});
    }
  }

  /** Only eligible crew of the role can be on a duty: the assigned ids are among the pre-check's eligible ids. */
  lemma AssignedAreEligible(crew: seq<CrewMember>, duties: seq<Duty>, eligible: map<PairKey, bool>, dId: string, role: string, a: Assignment)
    requires forall cId, dId :: X(cId, dId) in a ==> HasVar(crew, duties, eligible, cId, dId)
    ensures |AssignedOfRole(crew, dId, role, a)| <= |CoverageCheck.EligibleCrewOfRole(crew, dId, role, eligible)|
  {
    var ids := CoverageCheck.EligibleCrewOfRole(crew, dId, role, eligible);
    CoverageCheck.EligibleCrewOfRoleMembers(crew, dId, role, eligible);
    ValidateCrewDuties.IdSetSizeIffDistinct(ids);
    var onDuty := AssignedOfRole(crew, dId, role, a);
    forall id | id in onDuty ensures id in ValidateCrewDuties.IdSet(ids) {
      var i :| 0 <= i < |crew| && crew[i].role == role && Value(a, X(crew[i].crewId, dId)) == 1 && crew[i].crewId == id;
      assert X(id, dId) in a;
      assert CoverageCheck.Counts(crew, i, dId, role, eligible);
      assert id in ids;
    }
    SubsetCard(onDuty, ValidateCrewDuties.IdSet(ids));
  }

  /**
   * A shortfall found by the coverage pre-check makes the model infeasible:
   * if fewer crew of a role are eligible for a duty than its coverage
   * requires, no assignment meets that duty's coverage equality.
   */
  lemma IssueImpliesInfeasible(crew: seq<CrewMember>, duties: seq<Duty>, eligible: map<PairKey, bool>, conflicts: seq<(string, string)>, j: int, k: int)
    requires Distinct(CrewIds(crew)) && Distinct(DutyIds(duties))
    requires 0 <= j < |duties| && 0 <= k < |duties[j].coverage|
    requires CoverageCheck.ShortEntry(crew, duties, eligible, j, k)
    ensures forall a :: !Satisfies(FeasibilityOf(crew, duties, eligible, conflicts).model, a)
  {
    forall a ensures !Satisfies(FeasibilityOf(crew, duties, eligible, conflicts).model, a) {
      FeasibilitySemantics(crew, duties, eligible, conflicts, a);
      if Satisfies(FeasibilityOf(crew, duties, eligible, conflicts).model, a) {
        AssignedAreEligible(crew, duties, eligible, duties[j].dutyId, duties[j].coverage[k].0, a);
        assert false;
      }
    }
  }

  /**
   * So a non-empty report from `check_coverage_feasibility` (any order of
   * the issues it collects) means the feasibility model has no solution.
   */
  lemma ReportedIssueImpliesInfeasible(crew: seq<CrewMember>, duties: seq<Duty>, eligible: map<PairKey, bool>, conflicts: seq<(string, string)>, issues: seq<CoverageCheck.CoverageIssue>)
    requires Distinct(CrewIds(crew)) && Distinct(DutyIds(duties))
    requires multiset(issues) == multiset(CoverageCheck.UnsortedIssues(crew, duties, eligible))
    requires issues != []
    ensures forall a :: !Satisfies(FeasibilityOf(crew, duties, eligible, conflicts).model, a)
  {
    CoverageCheck.CoverageReport(crew, duties, eligible, issues);
    var j, k :| 0 <= j < |duties| && 0 <= k < |duties[j].coverage| && CoverageCheck.ShortEntry(crew, duties, eligible, j, k);
    IssueImpliesInfeasible(crew, duties, eligible, conflicts, j, k);
  }
}

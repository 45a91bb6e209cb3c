/**
 * The eligibility filter: for every (crew_id, duty_id) pair, whether the
 * crew member may be assigned to the duty at all, judged on static
 * attributes only.
 */
module Eligibility {
  import opened Domain

  type PairKey = (string, string)

  /** Role required by the duty, same base, qualified for the aircraft type. */
  predicate IsEligible(c: CrewMember, d: Duty) {
    HasRole(d.coverage, c.role) && c.base == d.base && d.aircraftType in c.qualifiedTypes
  }

  /** `eligible.get((c_id, d_id), False)` */
  function EligibleGet(eligible: map<PairKey, bool>, cId: string, dId: string): bool {
    if (cId, dId) in eligible then eligible[(cId, dId)] else false
  }

  /** `m` after the inner loop has written one crew member's entries, duty after duty. */
  function WriteRow(m: map<PairKey, bool>, c: CrewMember, duties: seq<Duty>): map<PairKey, bool>
    decreases |duties|
  {
    if duties == [] then m
    else
      var d := duties[|duties| - 1];
      WriteRow(m, c, duties[..|duties| - 1])[(c.crewId, d.dutyId) := IsEligible(c, d)]
  }

  /** The dictionary after the double loop: later writes to a key replace earlier ones. */
  function EligibilityMap(crew: seq<CrewMember>, duties: seq<Duty>): map<PairKey, bool>
    decreases |crew|
  {
    if crew == [] then map[]
    else WriteRow(EligibilityMap(crew[..|crew| - 1], duties), crew[|crew| - 1], duties)
  }

  method ComputeEligibility(crew: seq<CrewMember>, duties: seq<Duty>) returns (eligible: map<PairKey, bool>)
    ensures eligible == EligibilityMap(crew, duties)
  {
    eligible := map[];
    var i := 0;
    while i < |crew|
      invariant 0 <= i <= |crew|
      invariant eligible == EligibilityMap(crew[..i], duties)
    {
      var c := crew[i];
      ghost var before := eligible;
      var j := 0;
      while j < |duties|
        invariant 0 <= j <= |duties|
        invariant eligible == WriteRow(before, c, duties[..j])
      {
        var d := duties[j];
        var ok := HasRole(d.coverage, c.role) && c.base == d.base && d.aircraftType in c.qualifiedTypes;
        eligible := eligible[(c.crewId, d.dutyId) := ok];
        assert duties[..j + 1][..j] == duties[..j];
        j := j + 1;
      }
      assert crew[..i + 1][..i] == crew[..i];
      assert duties[..|duties|] == duties;
      i := i + 1;
    }
    assert crew[..|crew|] == crew;
  }

  lemma {:induction false} WriteRowKeys(m: map<PairKey, bool>, c: CrewMember, duties: seq<Duty>)
    ensures WriteRow(m, c, duties).Keys == m.Keys + set j | 0 <= j < |duties| :: (c.crewId, duties[j].dutyId)
    ensures forall k :: k in m && k.0 != c.crewId ==> WriteRow(m, c, duties)[k] == m[k]
    decreases |duties|
  {
    if duties != [] {
      var init := duties[..|duties| - 1];
      WriteRowKeys(m, c, init);
      assert forall j :: 0 <= j < |init| ==> init[j] == duties[j];
    }
  }

  /** The map has exactly one entry per (crew id, duty id) pair; no crew or no duties gives no entry. */
  lemma {:induction false} EligibilityKeys(crew: seq<CrewMember>, duties: seq<Duty>)
    ensures EligibilityMap(crew, duties).Keys ==
      set i, j | 0 <= i < |crew| && 0 <= j < |duties| :: (crew[i].crewId, duties[j].dutyId)
    ensures crew == [] || duties == [] ==> EligibilityMap(crew, duties) == map[]
    decreases |crew|
  {
    if crew != [] {
      var init := crew[..|crew| - 1];
      EligibilityKeys(init, duties);
      WriteRowKeys(EligibilityMap(init, duties), crew[|crew| - 1], duties);
      assert forall i :: 0 <= i < |init| ==> init[i] == crew[i];
      if duties == [] {
        assert EligibilityMap(crew, duties).Keys == {};
      }
    }
  }

  /** Index `i` holds the last occurrence of its crew id. */
  predicate LastCrew(crew: seq<CrewMember>, i: int)
    requires 0 <= i < |crew|
  {
    forall k :: i < k < |crew| ==> crew[k].crewId != crew[i].crewId
  }

  /** Index `j` holds the last occurrence of its duty id. */
  predicate LastDuty(duties: seq<Duty>, j: int)
    requires 0 <= j < |duties|
  {
    forall k :: j < k < |duties| ==> duties[k].dutyId != duties[j].dutyId
  }

  lemma {:induction false} WriteRowEntry(m: map<PairKey, bool>, c: CrewMember, duties: seq<Duty>, j: int)
    requires 0 <= j < |duties| && LastDuty(duties, j)
    ensures (c.crewId, duties[j].dutyId) in WriteRow(m, c, duties)
    ensures WriteRow(m, c, duties)[(c.crewId, duties[j].dutyId)] == IsEligible(c, duties[j])
    decreases |duties|
  {
    if j < |duties| - 1 {
      WriteRowEntry(m, c, duties[..|duties| - 1], j);
    }
  }

  /**
   * Each entry is decided by one crew member and one duty alone: the last
   * ones in the input lists that carry the entry's ids.
   */
  lemma {:induction false} EligibilityEntry(crew: seq<CrewMember>, duties: seq<Duty>, i: int, j: int)
    requires 0 <= i < |crew| && LastCrew(crew, i)
    requires 0 <= j < |duties| && LastDuty(duties, j)
    ensures (crew[i].crewId, duties[j].dutyId) in EligibilityMap(crew, duties)
    ensures EligibilityMap(crew, duties)[(crew[i].crewId, duties[j].dutyId)] == IsEligible(crew[i], duties[j])
    decreases |crew|
  {
    var last := crew[|crew| - 1];
    var init := crew[..|crew| - 1];
    if i == |crew| - 1 {
      WriteRowEntry(EligibilityMap(init, duties), last, duties, j);
    } else {
      EligibilityEntry(init, duties, i, j);
      WriteRowKeys(EligibilityMap(init, duties), last, duties);
    }
  }

  /** With distinct ids, the map is exactly the eligibility rule, pair by pair. */
  lemma EligibilityExact(crew: seq<CrewMember>, duties: seq<Duty>, i: int, j: int)
    requires Distinct(CrewIds(crew)) && Distinct(DutyIds(duties))
    requires 0 <= i < |crew| && 0 <= j < |duties|
    ensures EligibleGet(EligibilityMap(crew, duties), crew[i].crewId, duties[j].dutyId) <==>
      HasRole(duties[j].coverage, crew[i].role) && crew[i].base == duties[j].base &&
      duties[j].aircraftType in crew[i].qualifiedTypes
  {
    assert forall k :: i < k < |crew| ==> CrewIds(crew)[i] != CrewIds(crew)[k];
    assert forall k :: j < k < |duties| ==> DutyIds(duties)[j] != DutyIds(duties)[k];
    EligibilityEntry(crew, duties, i, j);
  }

  /** The last index carrying the same duty id as index `j0`. */
  function LastIndexOf(duties: seq<Duty>, j0: int): (j: int)
    requires 0 <= j0 < |duties|
    ensures j0 <= j < |duties| && duties[j].dutyId == duties[j0].dutyId && LastDuty(duties, j)
    decreases |duties| - j0
  {
    if exists k :: j0 < k < |duties| && duties[k].dutyId == duties[j0].dutyId then
      var k :| j0 < k < |duties| && duties[k].dutyId == duties[j0].dutyId;
      LastIndexOf(duties, k)
    else j0
  }

  /** A crew member whose role no duty asks for is eligible for nothing. */
  lemma UnrequestedRoleIneligible(crew: seq<CrewMember>, duties: seq<Duty>, i: int)
    requires 0 <= i < |crew| && LastCrew(crew, i)
    requires forall j :: 0 <= j < |duties| ==> !HasRole(duties[j].coverage, crew[i].role)
    ensures forall dId :: !EligibleGet(EligibilityMap(crew, duties), crew[i].crewId, dId)
  {
    EligibilityKeys(crew, duties);
    forall dId | (crew[i].crewId, dId) in EligibilityMap(crew, duties)
      ensures !EligibilityMap(crew, duties)[(crew[i].crewId, dId)]
    {
      var i0, j0 :| 0 <= i0 < |crew| && 0 <= j0 < |duties| && (crew[i0].crewId, duties[j0].dutyId) == (crew[i].crewId, dId);
      var j := LastIndexOf(duties, j0);
      EligibilityEntry(crew, duties, i, j);
    }
  }
}

/**
 * The instance records of the rostering system: crew members, duties,
 * off-day requests and scenario parameters.  All of them are frozen records
 * in the Python package, so they are datatypes here: no operation can change a
 * field of an existing value, and a duty's duration cannot drift from its
 * start and end.
 */
module Domain {

  /** Minutes in one day; also the bound on a duty's start and end minute. */
  const MinutesPerDay: int := 24 * 60

  /** Python dict keys are distinct; a coverage map keeps them in insertion order. */
  ghost predicate DistinctRoles(cov: seq<(string, int)>) {
    forall i, j :: 0 <= i < j < |cov| ==> cov[i].0 != cov[j].0
  }

  /** A duty's coverage: role -> required count, as an insertion-ordered dict. */
  type Coverage = cov: seq<(string, int)> | DistinctRoles(cov)

  /** `role in coverage` on the dict. */
  predicate HasRole(cov: seq<(string, int)>, role: string) {
    exists k :: 0 <= k < |cov| && cov[k].0 == role
  }

  datatype CrewMember = CrewMember(
    crewId: string,
    role: string,
    base: string,
    qualifiedTypes: seq<string>,
    maxMinutes: int)

  datatype Duty = Duty(
    dutyId: string,
    day: int,          // 1..horizon days
    startMin: int,     // minutes from 00:00 of `day`
    endMin: int,
    base: string,
    aircraftType: string,
    coverage: Coverage)
  {
    /** Length of the duty in minutes. */
    function DurationMin(): (r: int)
      ensures startMin + r == endMin
      ensures r > 0 <==> endMin > startMin
    {
      endMin - startMin
    }
  }

  datatype OffRequest = OffRequest(crewId: string, day: int, penalty: int)

  datatype Scenario = Scenario(
    horizonDays: int,
    minRestMinutes: int,
    maxConsecutiveWorkDays: int,
    minRestDaysPerWeek: int,
    lateEndThresholdMin: int,
    earlyStartThresholdMin: int,
    weights: map<string, int>)

  function CrewIds(crew: seq<CrewMember>): (ids: seq<string>)
    ensures |ids| == |crew|
    ensures forall i :: 0 <= i < |crew| ==> ids[i] == crew[i].crewId
  {
    seq(|crew|, i requires 0 <= i < |crew| => crew[i].crewId)
  }

  function DutyIds(duties: seq<Duty>): (ids: seq<string>)
    ensures |ids| == |duties|
    ensures forall i :: 0 <= i < |duties| ==> ids[i] == duties[i].dutyId
  {
    seq(|duties|, i requires 0 <= i < |duties| => duties[i].dutyId)
  }

  /** No identifier occurs twice. */
  predicate Distinct(ids: seq<string>) {
    forall i, j :: 0 <= i < j < |ids| ==> ids[i] != ids[j]
  }
}

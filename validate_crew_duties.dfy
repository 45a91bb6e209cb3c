/**
 * Load-time validation of crew and duties.  Each validator raises on the
 * first defect it meets; here it returns that defect as `Fail(error)`, and
 * `Pass` when the whole list is well formed.
 */
module ValidateCrewDuties {
  import opened Domain

  const AllowedRoles: set<string> := {"CAPT", "FO", "FA"}

  datatype ValidationError =
    | DuplicateCrewId
    | InvalidRole(crewId: string, role: string)
    | NonPositiveMaxMinutes(crewId: string)
    | EmptyQualifiedTypes(crewId: string)
    | DuplicateDutyId
    | DayOutOfRange(dutyId: string, day: int, horizonDays: int)
    | InvalidStartEnd(dutyId: string)
    | EndNotAfterStart(dutyId: string)
    | DurationTooLong(dutyId: string)
    | EmptyCoverage(dutyId: string)
    | UnknownCoverageRole(dutyId: string, role: string)
    | NonPositiveCount(dutyId: string, role: string)

  datatype Outcome = Pass | Fail(error: ValidationError)

  /** `set(ids)` */
  function IdSet(ids: seq<string>): set<string> {
    set i | 0 <= i < |ids| :: ids[i]
  }

  /** `len(set(ids)) == len(ids)` holds exactly when no id repeats. */
  lemma {:induction false} IdSetSizeIffDistinct(ids: seq<string>)
    ensures |IdSet(ids)| <= |ids|
    ensures |IdSet(ids)| == |ids| <==> Distinct(ids)
  {
    if ids != [] {
      var rest := ids[1..];
      IdSetSizeIffDistinct(rest);
      assert IdSet(ids) == {ids[0]} + IdSet(rest) by {
        forall x | x in IdSet(ids) ensures x in {ids[0]} + IdSet(rest) {
          var i :| 0 <= i < |ids| && ids[i] == x;
          if i > 0 { assert rest[i - 1] == x; }
        }
      }
      if ids[0] in IdSet(rest) {
        var k :| 0 <= k < |rest| && rest[k] == ids[0];
        assert ids[k + 1] == ids[0];
        assert !Distinct(ids);
      } else {
        assert Distinct(ids) <==> Distinct(rest) by {
          if Distinct(rest) {
            forall i, j | 0 <= i < j < |ids| ensures ids[i] != ids[j] {
              if i == 0 { assert ids[j] == rest[j - 1]; } else { assert rest[i - 1] != rest[j - 1]; }
            }
          }
          if Distinct(ids) {
            forall i, j | 0 <= i < j < |rest| ensures rest[i] != rest[j] {
              assert ids[i + 1] != ids[j + 1];
            }
          }
        }
      }
    }
  }

  // ---------------------------------------------------------------- crew

  /** The per-member checks, in the order `validate_crew` raises them; a member passes iff it is valid. */
  function CheckCrewMember(c: CrewMember): (r: Outcome)
    ensures r.Pass? <==> CrewMemberValid(c)
  {
    if c.role !in AllowedRoles then Fail(InvalidRole(c.crewId, c.role))
    else if c.maxMinutes <= 0 then Fail(NonPositiveMaxMinutes(c.crewId))
    else if |c.qualifiedTypes| == 0 then Fail(EmptyQualifiedTypes(c.crewId))
    else Pass
  }

  ghost predicate CrewMemberValid(c: CrewMember) {
    c.role in AllowedRoles && c.maxMinutes > 0 && c.qualifiedTypes != []
  }

  /** The first failing member's defect, or Pass. */
  function CheckCrewMembers(crew: seq<CrewMember>): Outcome {
    if crew == [] then Pass
    else if CheckCrewMember(crew[0]).Fail? then CheckCrewMember(crew[0])
    else CheckCrewMembers(crew[1..])
  }

  function ValidateCrew(crew: seq<CrewMember>): Outcome {
    var ids := CrewIds(crew);
    if |IdSet(ids)| != |ids| then Fail(DuplicateCrewId)
    else CheckCrewMembers(crew)
  }

  /** The error, if any, is the defect of the first member that has one. */
  lemma {:induction false} CheckCrewMembersFirstDefect(crew: seq<CrewMember>)
    ensures CheckCrewMembers(crew).Pass? <==> forall i :: 0 <= i < |crew| ==> CrewMemberValid(crew[i])
    ensures CheckCrewMembers(crew).Fail? ==>
      exists i :: 0 <= i < |crew| && CheckCrewMembers(crew) == CheckCrewMember(crew[i]) &&
        !CrewMemberValid(crew[i]) && forall k :: 0 <= k < i ==> CrewMemberValid(crew[k])
  {
    if crew != [] {
      CheckCrewMembersFirstDefect(crew[1..]);
      if CheckCrewMembers(crew).Fail? && CheckCrewMember(crew[0]).Pass? {
        var i :| 0 <= i < |crew[1..]| && CheckCrewMembers(crew[1..]) == CheckCrewMember(crew[1..][i]) &&
          !CrewMemberValid(crew[1..][i]) && forall k :: 0 <= k < i ==> CrewMemberValid(crew[1..][k]);
        assert CheckCrewMembers(crew) == CheckCrewMember(crew[i + 1]);
        forall k | 0 <= k < i + 1 ensures CrewMemberValid(crew[k]) {
          if k > 0 { assert crew[k] == crew[1..][k - 1]; }
        }
      }
      if forall i :: 0 <= i < |crew| ==> CrewMemberValid(crew[i]) {
        assert forall i :: 0 <= i < |crew[1..]| ==> CrewMemberValid(crew[1..][i]) by {
          forall i | 0 <= i < |crew[1..]| ensures CrewMemberValid(crew[1..][i]) {
            assert crew[1..][i] == crew[i + 1];
          }
        }
      }
    }
  }

  /** validate_crew accepts exactly the crews with distinct ids and valid members. */
  lemma ValidateCrewPassIff(crew: seq<CrewMember>)
    ensures ValidateCrew(crew).Pass? <==>
      Distinct(CrewIds(crew)) && forall i :: 0 <= i < |crew| ==> CrewMemberValid(crew[i])
    ensures ValidateCrew(crew) == Fail(DuplicateCrewId) <==> !Distinct(CrewIds(crew))
  {
    IdSetSizeIffDistinct(CrewIds(crew));
    CheckCrewMembersFirstDefect(crew);
  }

  // ---------------------------------------------------------------- duties

  /** The per-entry coverage checks, first failing entry wins. */
  function CheckCoverageEntries(dutyId: string, cov: seq<(string, int)>): Outcome {
    if cov == [] then Pass
    else if cov[0].0 !in AllowedRoles then Fail(UnknownCoverageRole(dutyId, cov[0].0))
    else if cov[0].1 <= 0 then Fail(NonPositiveCount(dutyId, cov[0].0))
    else CheckCoverageEntries(dutyId, cov[1..])
  }

  /** The per-duty checks, in the order `validate_duties` raises them. */
  function CheckDuty(d: Duty, horizonDays: int): Outcome {
    if !(1 <= d.day <= horizonDays) then Fail(DayOutOfRange(d.dutyId, d.day, horizonDays))
    else if !(0 <= d.startMin < MinutesPerDay) || !(0 <= d.endMin <= MinutesPerDay) then Fail(InvalidStartEnd(d.dutyId))
    else if d.endMin <= d.startMin then Fail(EndNotAfterStart(d.dutyId))
    else if d.DurationMin() > MinutesPerDay then Fail(DurationTooLong(d.dutyId))
    else if |d.coverage| == 0 then Fail(EmptyCoverage(d.dutyId))
    else CheckCoverageEntries(d.dutyId, d.coverage)
  }

  function CheckDuties(duties: seq<Duty>, horizonDays: int): Outcome {
    if duties == [] then Pass
    else if CheckDuty(duties[0], horizonDays).Fail? then CheckDuty(duties[0], horizonDays)
    else CheckDuties(duties[1..], horizonDays)
  }

  function ValidateDuties(duties: seq<Duty>, horizonDays: int): Outcome {
    var ids := DutyIds(duties);
    if |IdSet(ids)| != |ids| then Fail(DuplicateDutyId)
    else CheckDuties(duties, horizonDays)
  }

  /** What a well-formed duty is, independently of the order of the checks. */
  ghost predicate DutyValid(d: Duty, horizonDays: int) {
    && 1 <= d.day <= horizonDays
    && 0 <= d.startMin < d.endMin <= MinutesPerDay
    && d.coverage != []
    && forall k :: 0 <= k < |d.coverage| ==> d.coverage[k].0 in AllowedRoles && d.coverage[k].1 > 0
  }

  lemma {:induction false} CheckCoverageEntriesPassIff(dutyId: string, cov: seq<(string, int)>)
    ensures CheckCoverageEntries(dutyId, cov).Pass? <==>
      forall k :: 0 <= k < |cov| ==> cov[k].0 in AllowedRoles && cov[k].1 > 0
    ensures CheckCoverageEntries(dutyId, cov).Fail? ==>
      CheckCoverageEntries(dutyId, cov).error.UnknownCoverageRole? ||
      CheckCoverageEntries(dutyId, cov).error.NonPositiveCount?
  {
    if cov != [] {
      CheckCoverageEntriesPassIff(dutyId, cov[1..]);
      assert forall k :: 1 <= k < |cov| ==> cov[k] == cov[1..][k - 1];
    }
  }

  lemma CheckDutyPassIff(d: Duty, horizonDays: int)
    ensures CheckDuty(d, horizonDays).Pass? <==> DutyValid(d, horizonDays)
    ensures CheckDuty(d, horizonDays) != Fail(DurationTooLong(d.dutyId))
  {
    CheckCoverageEntriesPassIff(d.dutyId, d.coverage);
  }

  lemma {:induction false} CheckDutiesPassIff(duties: seq<Duty>, horizonDays: int)
    ensures CheckDuties(duties, horizonDays).Pass? <==>
      forall i :: 0 <= i < |duties| ==> DutyValid(duties[i], horizonDays)
    ensures CheckDuties(duties, horizonDays).Fail? ==>
      !CheckDuties(duties, horizonDays).error.DurationTooLong? &&
      !CheckDuties(duties, horizonDays).error.DuplicateDutyId?
  {
    if duties != [] {
      CheckDutyPassIff(duties[0], horizonDays);
      CheckCoverageEntriesPassIff(duties[0].dutyId, duties[0].coverage);
      CheckDutiesPassIff(duties[1..], horizonDays);
      assert forall i :: 1 <= i < |duties| ==> duties[i] == duties[1..][i - 1];
    }
  }

  /** validate_duties accepts exactly the duty lists with distinct ids and valid duties. */
  lemma ValidateDutiesPassIff(duties: seq<Duty>, horizonDays: int)
    ensures ValidateDuties(duties, horizonDays).Pass? <==>
      Distinct(DutyIds(duties)) && forall i :: 0 <= i < |duties| ==> DutyValid(duties[i], horizonDays)
    ensures ValidateDuties(duties, horizonDays) == Fail(DuplicateDutyId) <==> !Distinct(DutyIds(duties))
  {
    IdSetSizeIffDistinct(DutyIds(duties));
    CheckDutiesPassIff(duties, horizonDays);
  }

  /**
   * The explicit duration check can never fire: the start/end checks that
   * run before it already bound every accepted duty's duration by 1..1440.
   */
  lemma ValidatedDutyBounds(duties: seq<Duty>, horizonDays: int)
    ensures ValidateDuties(duties, horizonDays).Fail? ==> !ValidateDuties(duties, horizonDays).error.DurationTooLong?
    ensures ValidateDuties(duties, horizonDays).Pass? ==>
      forall i :: 0 <= i < |duties| ==>
        1 <= duties[i].day <= horizonDays && 1 <= duties[i].DurationMin() <= MinutesPerDay
  {
    CheckDutiesPassIff(duties, horizonDays);
  }
}

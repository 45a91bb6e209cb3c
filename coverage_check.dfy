/**
 * The per-duty coverage pre-check: for every duty and every role it
 * requires, count the crew of that role marked eligible for it, report a
 * shortfall when there are fewer than required, and sort the report most
 * severe shortfall first.
 */
module CoverageCheck {
  import opened Domain
  import opened StringOrder
  import opened Eligibility

  datatype CoverageIssue = CoverageIssue(
    dutyId: string,
    day: int,
    role: string,
    required: int,
    eligibleCount: int,
    eligibleCrewIds: seq<string>)

  /** Ids of the crew of `role` eligible for duty `dutyId`, in crew order. */
  function EligibleCrewOfRole(crew: seq<CrewMember>, dutyId: string, role: string, eligible: map<PairKey, bool>): (ids: seq<string>)
    ensures |ids| <= |crew|
  {
    if crew == [] then []
    else
      (if crew[0].role == role && EligibleGet(eligible, crew[0].crewId, dutyId) then [crew[0].crewId] else []) +
      EligibleCrewOfRole(crew[1..], dutyId, role, eligible)
  }

  /** Crew member `i` counts towards `role` on duty `dutyId`. */
  predicate Counts(crew: seq<CrewMember>, i: int, dutyId: string, role: string, eligible: map<PairKey, bool>)
    requires 0 <= i < |crew|
  {
    crew[i].role == role && EligibleGet(eligible, crew[i].crewId, dutyId)
  }

  lemma {:induction false} EligibleCrewOfRoleMembers(crew: seq<CrewMember>, dutyId: string, role: string, eligible: map<PairKey, bool>)
    ensures forall id :: id in EligibleCrewOfRole(crew, dutyId, role, eligible) <==>
      exists i :: 0 <= i < |crew| && crew[i].crewId == id && Counts(crew, i, dutyId, role, eligible)
  {
    if crew != [] {
      EligibleCrewOfRoleMembers(crew[1..], dutyId, role, eligible);
      forall id ensures id in EligibleCrewOfRole(crew, dutyId, role, eligible) <==>
        exists i :: 0 <= i < |crew| && crew[i].crewId == id && Counts(crew, i, dutyId, role, eligible)
      {
        if exists i :: 0 <= i < |crew| && crew[i].crewId == id && Counts(crew, i, dutyId, role, eligible) {
          var i :| 0 <= i < |crew| && crew[i].crewId == id && Counts(crew, i, dutyId, role, eligible);
          if i > 0 { assert crew[1..][i - 1] == crew[i]; }
        }
        if id in EligibleCrewOfRole(crew[1..], dutyId, role, eligible) {
          var i :| 0 <= i < |crew[1..]| && crew[1..][i].crewId == id && Counts(crew[1..], i, dutyId, role, eligible);
          assert crew[i + 1] == crew[1..][i];
        }
      }
    }
  }

  /** The issue the check reports for one (duty, role, required) entry with these eligible crew. */
  function MakeIssue(d: Duty, role: string, required: int, ids: seq<string>): CoverageIssue {
    CoverageIssue(d.dutyId, d.day, role, required, |ids|, SortStrings(ids))
  }

  /** The eligible crew of coverage entry `entry` of duty `d` fall short of its required count. */
  predicate EntryShort(crew: seq<CrewMember>, d: Duty, entry: (string, int), eligible: map<PairKey, bool>) {
    |EligibleCrewOfRole(crew, d.dutyId, entry.0, eligible)| < entry.1
  }

  /** The issue reported for coverage entry `entry` of duty `d`. */
  function EntryIssue(crew: seq<CrewMember>, d: Duty, entry: (string, int), eligible: map<PairKey, bool>): CoverageIssue {
    MakeIssue(d, entry.0, entry.1, EligibleCrewOfRole(crew, d.dutyId, entry.0, eligible))
  }

  /** Issues for the first entries `cov` of one duty's coverage, in entry order. */
  function EntryIssues(crew: seq<CrewMember>, d: Duty, cov: seq<(string, int)>, eligible: map<PairKey, bool>): seq<CoverageIssue>
    decreases |cov|
  {
    if cov == [] then []
    else
      var entry := cov[|cov| - 1];
      EntryIssues(crew, d, cov[..|cov| - 1], eligible) +
        (if EntryShort(crew, d, entry, eligible) then [EntryIssue(crew, d, entry, eligible)] else [])
  }

  /** The issue list before sorting: duty by duty, coverage entry by entry. */
  function UnsortedIssues(crew: seq<CrewMember>, duties: seq<Duty>, eligible: map<PairKey, bool>): seq<CoverageIssue>
    decreases |duties|
  {
    if duties == [] then []
    else
      var d := duties[|duties| - 1];
      UnsortedIssues(crew, duties[..|duties| - 1], eligible) + EntryIssues(crew, d, d.coverage, eligible)
  }

  // ---------------------------------------------------------------- ordering

  /** The sort key's first component: negative, and most negative for the worst shortfall. */
  function Gap(x: CoverageIssue): int {
    x.eligibleCount - x.required
  }

  /** `key(x) <= key(y)` for key = (eligible_count - required, day, duty_id, role). */
  predicate IssueLe(x: CoverageIssue, y: CoverageIssue) {
    if Gap(x) != Gap(y) then Gap(x) < Gap(y)
    else if x.day != y.day then x.day < y.day
    else if x.dutyId != y.dutyId then StrLe(x.dutyId, y.dutyId)
    else StrLe(x.role, y.role)
  }

  predicate IssuesSorted(s: seq<CoverageIssue>) {
    forall p, q :: 0 <= p < q < |s| ==> IssueLe(s[p], s[q])
  }

  lemma IssueLeTotal(x: CoverageIssue, y: CoverageIssue)
    ensures IssueLe(x, y) || IssueLe(y, x)
  {
    StrLeTotal(x.dutyId, y.dutyId);
    StrLeTotal(x.role, y.role);
  }

  lemma IssueLeTransitive(x: CoverageIssue, y: CoverageIssue, z: CoverageIssue)
    requires IssueLe(x, y) && IssueLe(y, z)
    ensures IssueLe(x, z)
  {
    if Gap(x) == Gap(y) == Gap(z) && x.day == y.day == z.day {
      if x.dutyId != y.dutyId && y.dutyId != z.dutyId {
        if x.dutyId == z.dutyId {
          StrLeAntisymmetric(x.dutyId, y.dutyId);
        } else {
          StrLeTransitive(x.dutyId, y.dutyId, z.dutyId);
        }
      } else if x.dutyId == y.dutyId == z.dutyId {
        StrLeTransitive(x.role, y.role, z.role);
      }
    }
  }

  /** `issues.sort(key=...)`: an insertion sort in place. */
  method SortIssues(a: array<CoverageIssue>)
    modifies a
    ensures IssuesSorted(a[..])
    ensures multiset(a[..]) == multiset(old(a[..]))
  {
    var i := 0;
    while i < a.Length
      invariant 0 <= i <= a.Length
      invariant IssuesSorted(a[..i])
      invariant multiset(a[..]) == multiset(old(a[..]))
    {
      SinkIssue(a, i);
      i := i + 1;
    }
    assert a[..a.Length] == a[..];
  }

  /** One pass of the insertion sort: moves `a[i]` down into the sorted prefix `a[..i]`. */
  method SinkIssue(a: array<CoverageIssue>, i: int)
    requires 0 <= i < a.Length && IssuesSorted(a[..i])
    modifies a
    ensures IssuesSorted(a[..i + 1])
    ensures multiset(a[..]) == multiset(old(a[..]))
  {
    var j := i;
    while j > 0 && !IssueLe(a[j - 1], a[j])
      invariant 0 <= j <= i
      invariant Sinking(a[..], i, j)
      invariant multiset(a[..]) == multiset(old(a[..]))
    {
      SinkStep(a[..], i, j);
      a[j - 1], a[j] := a[j], a[j - 1];
      j := j - 1;
    }
    SinkDone(a[..], i, j);
  }

  /**
   * Mid-pass state of the insertion sort: the first `i + 1` elements are in
   * order once the moving element at `j` is set aside, and it is not above
   * anything after it.
   */
  predicate Sinking(s: seq<CoverageIssue>, i: int, j: int)
    requires 0 <= j <= i < |s|
  {
    && (forall p, q :: 0 <= p < q <= i && p != j && q != j ==> IssueLe(s[p], s[q]))
    && (forall q :: j < q <= i ==> IssueLe(s[j], s[q]))
  }

  lemma SinkStep(s: seq<CoverageIssue>, i: int, j: int)
    requires 0 < j <= i < |s| && Sinking(s, i, j) && !IssueLe(s[j - 1], s[j])
    ensures Sinking(s[j - 1 := s[j]][j := s[j - 1]], i, j - 1)
  {
    IssueLeTotal(s[j - 1], s[j]);
  }

  lemma SinkDone(s: seq<CoverageIssue>, i: int, j: int)
    requires 0 <= j <= i < |s| && Sinking(s, i, j) && (j == 0 || IssueLe(s[j - 1], s[j]))
    ensures IssuesSorted(s[..i + 1])
  {
    forall p | 0 <= p < j ensures IssueLe(s[p], s[j]) {
      if p < j - 1 {
        IssueLeTransitive(s[p], s[j - 1], s[j]);
      }
    }
  }

  // ---------------------------------------------------------------- the check

  /** The inner loop: append the issues of one duty's coverage entries. */
  method AppendDutyIssues(crew: seq<CrewMember>, d: Duty, eligible: map<PairKey, bool>, issues0: seq<CoverageIssue>)
    returns (issues: seq<CoverageIssue>)
    ensures issues == issues0 + EntryIssues(crew, d, d.coverage, eligible)
  {
    var cov: seq<(string, int)> := d.coverage;
    issues := issues0;
    var k := 0;
    while k < |cov|
      invariant 0 <= k <= |cov|
      invariant issues == issues0 + EntryIssues(crew, d, cov[..k], eligible)
    {
      var issue := CheckEntry(crew, d, cov[k], eligible);
      EntryIssuesStep(crew, d, cov, k, eligible);
      issues := issues + issue;
      k := k + 1;
    }
    assert cov[..|cov|] == cov;
  }

  /** The loop body for one (role, required) entry: its issue when too few crew are eligible, nothing otherwise. */
  method CheckEntry(crew: seq<CrewMember>, d: Duty, entry: (string, int), eligible: map<PairKey, bool>)
    returns (issue: seq<CoverageIssue>)
    ensures issue == if EntryShort(crew, d, entry, eligible) then [EntryIssue(crew, d, entry, eligible)] else []
  {
    var role := entry.0;
    var requiredN := entry.1;
    var eligibleCrew := EligibleCrewOfRole(crew, d.dutyId, role, eligible);
    var count := |eligibleCrew|;
    issue := [];
    if count < requiredN {
      issue := [CoverageIssue(d.dutyId, d.day, role, requiredN, count, SortStrings(eligibleCrew))];
    }
  }

  /** One more coverage entry adds its issue, if it is short, at the end. */
  lemma EntryIssuesStep(crew: seq<CrewMember>, d: Duty, cov: seq<(string, int)>, k: int, eligible: map<PairKey, bool>)
    requires 0 <= k < |cov|
    ensures EntryIssues(crew, d, cov[..k + 1], eligible) ==
      EntryIssues(crew, d, cov[..k], eligible) +
        (if EntryShort(crew, d, cov[k], eligible) then [EntryIssue(crew, d, cov[k], eligible)] else [])
  {
    assert cov[..k + 1][..k] == cov[..k];
  }

  method CheckCoverageFeasibility(crew: seq<CrewMember>, duties: seq<Duty>, eligible: map<PairKey, bool>)
    returns (issues: seq<CoverageIssue>)
    ensures IssuesSorted(issues)
    ensures multiset(issues) == multiset(UnsortedIssues(crew, duties, eligible))
  {
    issues := [];
    var i := 0;
    while i < |duties|
      invariant 0 <= i <= |duties|
      invariant issues == UnsortedIssues(crew, duties[..i], eligible)
    {
      assert duties[..i + 1][..i] == duties[..i];
      issues := AppendDutyIssues(crew, duties[i], eligible, issues);
      i := i + 1;
    }
    assert duties[..|duties|] == duties;
    var a := new CoverageIssue[|issues|](p requires 0 <= p < |issues| => issues[p]);
    assert a[..] == issues;
    SortIssues(a);
    issues := a[..];
  }

  // ---------------------------------------------------------------- what the report means

  /** The eligible crew of coverage entry `k` of duty `j` fall short of the required count. */
  predicate ShortEntry(crew: seq<CrewMember>, duties: seq<Duty>, eligible: map<PairKey, bool>, j: int, k: int)
    requires 0 <= j < |duties| && 0 <= k < |duties[j].coverage|
  {
    EntryShort(crew, duties[j], duties[j].coverage[k], eligible)
  }

  /** The issue reported for entry `k` of duty `j`. */
  function IssueFor(crew: seq<CrewMember>, duties: seq<Duty>, eligible: map<PairKey, bool>, j: int, k: int): CoverageIssue
    requires 0 <= j < |duties| && 0 <= k < |duties[j].coverage|
  {
    EntryIssue(crew, duties[j], duties[j].coverage[k], eligible)
  }

  /** Total number of (duty, role) coverage entries. */
  function CoverageEntryCount(duties: seq<Duty>): nat {
    if duties == [] then 0 else CoverageEntryCount(duties[..|duties| - 1]) + |duties[|duties| - 1].coverage|
  }

  /** `iss` is the issue of some short entry among `cov`. */
  predicate IssueOfEntries(crew: seq<CrewMember>, d: Duty, cov: seq<(string, int)>, eligible: map<PairKey, bool>, iss: CoverageIssue) {
    exists e :: e in cov && EntryShort(crew, d, e, eligible) && iss == EntryIssue(crew, d, e, eligible)
  }

  lemma IssueOfEntriesSnoc(crew: seq<CrewMember>, d: Duty, cov: seq<(string, int)>, eligible: map<PairKey, bool>, iss: CoverageIssue)
    requires cov != []
    ensures IssueOfEntries(crew, d, cov, eligible, iss) <==>
      IssueOfEntries(crew, d, cov[..|cov| - 1], eligible, iss) ||
      (EntryShort(crew, d, cov[|cov| - 1], eligible) && iss == EntryIssue(crew, d, cov[|cov| - 1], eligible))
  {
    assert cov == cov[..|cov| - 1] + [cov[|cov| - 1]];
  }

  lemma {:induction false} EntryIssuesMembership(crew: seq<CrewMember>, d: Duty, cov: seq<(string, int)>, eligible: map<PairKey, bool>)
    ensures |EntryIssues(crew, d, cov, eligible)| <= |cov|
    ensures forall iss :: iss in EntryIssues(crew, d, cov, eligible) <==> IssueOfEntries(crew, d, cov, eligible, iss)
    decreases |cov|
  {
    if cov != [] {
      var init := cov[..|cov| - 1];
      var last := cov[|cov| - 1];
      EntryIssuesMembership(crew, d, init, eligible);
      forall iss ensures iss in EntryIssues(crew, d, cov, eligible) <==> IssueOfEntries(crew, d, cov, eligible, iss) {
        IssueOfEntriesSnoc(crew, d, cov, eligible, iss);
      }
    }
  }

  /** `iss` is the issue of some short entry of some duty of `duties`. */
  predicate IssueOfDuties(crew: seq<CrewMember>, duties: seq<Duty>, eligible: map<PairKey, bool>, iss: CoverageIssue) {
    exists d :: d in duties && IssueOfEntries(crew, d, d.coverage, eligible, iss)
  }

  lemma IssueOfDutiesSnoc(crew: seq<CrewMember>, duties: seq<Duty>, eligible: map<PairKey, bool>, iss: CoverageIssue)
    requires duties != []
    ensures var d := duties[|duties| - 1];
      IssueOfDuties(crew, duties, eligible, iss) <==>
        IssueOfDuties(crew, duties[..|duties| - 1], eligible, iss) || IssueOfEntries(crew, d, d.coverage, eligible, iss)
  {
    assert duties == duties[..|duties| - 1] + [duties[|duties| - 1]];
  }

  /** The same membership, by positions: `iss` is the issue of entry `k` of duty `j`, a short one. */
  lemma IssueOfDutiesAt(crew: seq<CrewMember>, duties: seq<Duty>, eligible: map<PairKey, bool>, iss: CoverageIssue)
    ensures IssueOfDuties(crew, duties, eligible, iss) <==>
      exists j, k :: 0 <= j < |duties| && 0 <= k < |duties[j].coverage| &&
        ShortEntry(crew, duties, eligible, j, k) && iss == IssueFor(crew, duties, eligible, j, k)
  {
    if IssueOfDuties(crew, duties, eligible, iss) {
      var d :| d in duties && IssueOfEntries(crew, d, d.coverage, eligible, iss);
      var e :| e in d.coverage && EntryShort(crew, d, e, eligible) && iss == EntryIssue(crew, d, e, eligible);
      var j :| 0 <= j < |duties| && duties[j] == d;
      var k :| 0 <= k < |d.coverage| && d.coverage[k] == e;
      assert ShortEntry(crew, duties, eligible, j, k) && iss == IssueFor(crew, duties, eligible, j, k);
    }
    if exists j, k :: 0 <= j < |duties| && 0 <= k < |duties[j].coverage| &&
        ShortEntry(crew, duties, eligible, j, k) && iss == IssueFor(crew, duties, eligible, j, k)
    {
      var j, k :| 0 <= j < |duties| && 0 <= k < |duties[j].coverage| &&
        ShortEntry(crew, duties, eligible, j, k) && iss == IssueFor(crew, duties, eligible, j, k);
      var d := duties[j];
      assert d.coverage[k] in d.coverage;
      assert IssueOfEntries(crew, d, d.coverage, eligible, iss);
    }
  }

  lemma {:induction false} UnsortedIssuesMembership(crew: seq<CrewMember>, duties: seq<Duty>, eligible: map<PairKey, bool>)
    ensures |UnsortedIssues(crew, duties, eligible)| <= CoverageEntryCount(duties)
    ensures forall iss :: iss in UnsortedIssues(crew, duties, eligible) <==> IssueOfDuties(crew, duties, eligible, iss)
    decreases |duties|
  {
    if duties != [] {
      var init := duties[..|duties| - 1];
      var d := duties[|duties| - 1];
      UnsortedIssuesMembership(crew, init, eligible);
      EntryIssuesMembership(crew, d, d.coverage, eligible);
      forall iss ensures iss in UnsortedIssues(crew, duties, eligible) <==> IssueOfDuties(crew, duties, eligible, iss) {
        IssueOfDutiesSnoc(crew, duties, eligible, iss);
      }
    }
  }

  /**
   * What an issue says about its entry: the count is the length of the id
   * list and below the required count, and the ids are sorted and name crew
   * of the issue's role marked eligible for its duty.
   */
  predicate IssueConsistent(crew: seq<CrewMember>, eligible: map<PairKey, bool>, iss: CoverageIssue) {
    && iss.eligibleCount == |iss.eligibleCrewIds| < iss.required
    && SortedStrings(iss.eligibleCrewIds)
    && forall id :: id in iss.eligibleCrewIds ==>
         exists i :: 0 <= i < |crew| && crew[i].crewId == id && crew[i].role == iss.role &&
           EligibleGet(eligible, id, iss.dutyId)
  }

  lemma EntryIssueConsistent(crew: seq<CrewMember>, d: Duty, e: (string, int), eligible: map<PairKey, bool>)
    requires EntryShort(crew, d, e, eligible)
    ensures IssueConsistent(crew, eligible, EntryIssue(crew, d, e, eligible))
  {
    var ids := EligibleCrewOfRole(crew, d.dutyId, e.0, eligible);
    var iss := EntryIssue(crew, d, e, eligible);
    EligibleCrewOfRoleMembers(crew, d.dutyId, e.0, eligible);
    assert |multiset(SortStrings(ids))| == |multiset(ids)|;
    forall id | id in iss.eligibleCrewIds
      ensures exists i :: (0 <= i < |crew| && crew[i].crewId == id && crew[i].role == iss.role &&
                           EligibleGet(eligible, id, iss.dutyId))
    {
      assert id in multiset(SortStrings(ids));
      assert id in ids;
    }
  }

  /**
   * What the sorted report says: one issue per short (duty, role) entry and
   * nothing else, at most one per coverage entry, each consistent with its
   * entry; and no issue at all means every entry has enough eligible crew.
   */
  lemma CoverageReport(crew: seq<CrewMember>, duties: seq<Duty>, eligible: map<PairKey, bool>, issues: seq<CoverageIssue>)
    requires multiset(issues) == multiset(UnsortedIssues(crew, duties, eligible))
    ensures forall j, k :: 0 <= j < |duties| && 0 <= k < |duties[j].coverage| ==>
      (ShortEntry(crew, duties, eligible, j, k) <==> IssueFor(crew, duties, eligible, j, k) in issues)
    ensures |issues| <= CoverageEntryCount(duties)
    ensures forall iss :: iss in issues ==> IssueConsistent(crew, eligible, iss)
    ensures issues == [] <==>
      forall j, k :: 0 <= j < |duties| && 0 <= k < |duties[j].coverage| ==> !ShortEntry(crew, duties, eligible, j, k)
  {
    UnsortedIssuesMembership(crew, duties, eligible);
    assert forall iss :: iss in issues <==> iss in UnsortedIssues(crew, duties, eligible) by {
      forall iss ensures iss in issues <==> iss in UnsortedIssues(crew, duties, eligible) {
        assert iss in multiset(issues) <==> iss in multiset(UnsortedIssues(crew, duties, eligible));
      }
    }
    assert |issues| == |multiset(issues)|;
    forall iss | iss in issues ensures IssueConsistent(crew, eligible, iss) {
      var d :| d in duties && IssueOfEntries(crew, d, d.coverage, eligible, iss);
      var e :| e in d.coverage && EntryShort(crew, d, e, eligible) && iss == EntryIssue(crew, d, e, eligible);
      EntryIssueConsistent(crew, d, e, eligible);
    }
    forall j, k | 0 <= j < |duties| && 0 <= k < |duties[j].coverage|
      ensures IssueFor(crew, duties, eligible, j, k) in issues <==> ShortEntry(crew, duties, eligible, j, k)
    {
      var iss := IssueFor(crew, duties, eligible, j, k);
      IssueOfDutiesAt(crew, duties, eligible, iss);
      if iss in issues {
        var j', k' :| 0 <= j' < |duties| && 0 <= k' < |duties[j'].coverage| &&
          ShortEntry(crew, duties, eligible, j', k') && iss == IssueFor(crew, duties, eligible, j', k');
      }
    }
    if issues != [] {
      var iss := issues[0];
      assert iss in issues;
      IssueOfDutiesAt(crew, duties, eligible, iss);
      var j, k :| 0 <= j < |duties| && 0 <= k < |duties[j].coverage| &&
        ShortEntry(crew, duties, eligible, j, k) && iss == IssueFor(crew, duties, eligible, j, k);
    }
  }
}

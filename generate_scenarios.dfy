/**
 * `apply_changes`: the perturbations that turn a base instance into a
 * scenario variant.  Each change removes a crew member, stretches or
 * shifts a duty, or adds or removes an off-day request; changes apply in
 * list order and the first failing one aborts the variant.
 *
 * The duty dicts that `duty_by_id` points at are updated in place in the
 * Python script; here `duty_by_id` is a map whose entries are replaced, and its
 * insertion order is kept as a separate list of ids.
 */
module GenerateScenarios {
  import opened Wrappers
  import opened Domain

  /** One entry of a variant's `changes` list; a key absent from the JSON object is `None`. */
  datatype Change = Change(
    typeName: Option<string>,
    crewId: Option<string>,
    dutyId: Option<string>,
    deltaStartMin: Option<int>,
    deltaEndMin: Option<int>,
    day: Option<int>,
    penalty: Option<int>)

  datatype ChangeError =
    | UnknownChangeType(typeName: string)  // the `ValueError` of an unknown `type`
    | MissingKey(key: string)              // `ch[key]` on a change without that key
    | UnknownDuty(dutyId: string)          // `duty_by_id[d_id]` on an id that is not a duty

  /** The local state of `apply_changes`: the crew list, `duty_by_id` and the off-request list. */
  datatype Instance = Instance(
    crew: seq<CrewMember>,
    dutyOrder: seq<string>,
    dutyById: map<string, Duty>,
    offRequests: seq<OffRequest>)
  {
    /** `duty_by_id` as a dict: its keys in insertion order, each the id of the duty it maps to. */
    predicate Valid() {
      && Distinct(dutyOrder)
      && (forall id :: id in dutyById ==> id in dutyOrder)
      && (forall id :: id in dutyOrder ==> id in dutyById)
      && (forall id :: id in dutyById ==> dutyById[id].dutyId == id)
    }
  }

  /** What `apply_changes` returns: crew, duties, the scenario object and the off-requests. */
  datatype Output = Output(crew: seq<CrewMember>, duties: seq<Duty>, scenario: Scenario, offRequests: seq<OffRequest>)

  // ---------------------------------------------------------------- list comprehensions

  /** `[x for x in s if keep(x)]`. */
  function Filter<T>(s: seq<T>, keep: T -> bool): seq<T>
    decreases |s|
  {
    if s == [] then []
    else
      var rest := Filter(s[..|s| - 1], keep);
      if keep(s[|s| - 1]) then rest + [s[|s| - 1]] else rest
  }

  /** An element survives the filter exactly when it was there and is kept. */
  lemma {:induction false} FilterMembership<T>(s: seq<T>, keep: T -> bool, x: T)
    ensures x in Filter(s, keep) <==> x in s && keep(x)
    decreases |s|
  {
    if s != [] {
      var init := s[..|s| - 1];
      FilterMembership(init, keep, x);
      assert s == init + [s[|s| - 1]];
    }
  }

  /** Filtering keeps the order: filtering a concatenation concatenates the filtered parts. */
  lemma {:induction false} FilterConcat<T>(a: seq<T>, b: seq<T>, keep: T -> bool)
    ensures Filter(a + b, keep) == Filter(a, keep) + Filter(b, keep)
    decreases |b|
  {
    if b == [] {
      assert a + b == a;
    } else {
      var init := b[..|b| - 1];
      assert (a + b)[..|a + b| - 1] == a + init;
      FilterConcat(a, init, keep);
    }
  }

  /** A filter that keeps everything changes nothing. */
  lemma {:induction false} FilterKeepsAll<T>(s: seq<T>, keep: T -> bool)
    requires forall i :: 0 <= i < |s| ==> keep(s[i])
    ensures Filter(s, keep) == s
    decreases |s|
  {
    if s != [] {
      FilterKeepsAll(s[..|s| - 1], keep);
    }
  }

  // ---------------------------------------------------------------- duty_by_id

  /** `{d["duty_id"]: d for d in duties}`: a key keeps its first position, the last duty with it wins. */
  function DutyIndex(duties: seq<Duty>): (r: (seq<string>, map<string, Duty>))
    decreases |duties|
  {
    if duties == [] then ([], map[])
    else
      var prev := DutyIndex(duties[..|duties| - 1]);
      var d := duties[|duties| - 1];
      (if d.dutyId in prev.1 then prev.0 else prev.0 + [d.dutyId], prev.1[d.dutyId := d])
  }

  /** Some duty of the list has id `id`. */
  predicate HasDutyId(duties: seq<Duty>, id: string) {
    exists d :: d in duties && d.dutyId == id
  }

  /** The keys of the index are exactly the duty ids. */
  lemma {:induction false} DutyIndexKeys(duties: seq<Duty>)
    ensures forall id :: id in DutyIndex(duties).1 <==> HasDutyId(duties, id)
    decreases |duties|
  {
    if duties != [] {
      var init := duties[..|duties| - 1];
      var d := duties[|duties| - 1];
      DutyIndexKeys(init);
      assert duties == init + [d];
      forall id ensures HasDutyId(duties, id) <==> HasDutyId(init, id) || id == d.dutyId {
        if HasDutyId(duties, id) && id != d.dutyId {
          var e :| e in duties && e.dutyId == id;
          assert e in init;
        }
        if HasDutyId(init, id) {
          var e :| e in init && e.dutyId == id;
          assert e in duties;
        }
      }
    }
  }

  /** The index is a valid dict: distinct keys in insertion order, each the id of its duty. */
  lemma {:induction false} DutyIndexValid(duties: seq<Duty>)
    ensures Instance([], DutyIndex(duties).0, DutyIndex(duties).1, []).Valid()
    decreases |duties|
  {
    if duties != [] {
      var init := duties[..|duties| - 1];
      var d := duties[|duties| - 1];
      DutyIndexValid(init);
      var prev := DutyIndex(init);
      if d.dutyId !in prev.1 {
        var order := prev.0 + [d.dutyId];
        assert Distinct(order) by {
          forall i, j | 0 <= i < j < |order| ensures order[i] != order[j] {
            if j < |prev.0| {
              assert order[i] == prev.0[i] && order[j] == prev.0[j];
            } else {
              assert order[i] in prev.0;
            }
          }
        }
      }
    }
  }

  /** `duty_by_id[id]` is the last duty with that id. */
  predicate LastWith(duties: seq<Duty>, id: string, d: Duty) {
    exists i :: 0 <= i < |duties| && duties[i] == d && d.dutyId == id &&
      forall k :: i < k < |duties| ==> duties[k].dutyId != id
  }

  /** Later duties with the same id overwrite earlier ones. */
  lemma {:induction false} DutyIndexLast(duties: seq<Duty>)
    ensures forall id :: id in DutyIndex(duties).1 ==> LastWith(duties, id, DutyIndex(duties).1[id])
    decreases |duties|
  {
    if duties != [] {
      var init := duties[..|duties| - 1];
      var d := duties[|duties| - 1];
      DutyIndexLast(init);
      var prev := DutyIndex(init);
      var r := DutyIndex(duties);
      forall id | id in r.1 ensures LastWith(duties, id, r.1[id]) {
        if id == d.dutyId {
          assert duties[|duties| - 1] == r.1[id];
        } else {
          assert LastWith(init, id, prev.1[id]);
          var i :| 0 <= i < |init| && init[i] == prev.1[id] && prev.1[id].dutyId == id &&
            forall k :: i < k < |init| ==> init[k].dutyId != id;
          assert duties[i] == init[i];
          assert forall k :: i < k < |duties| - 1 ==> duties[k] == init[k];
        }
      }
    }
  }

  /** `list(duty_by_id.values())`: the duties in key insertion order. */
  function DutiesOut(order: seq<string>, byId: map<string, Duty>): seq<Duty>
    decreases |order|
  {
    if order == [] then []
    else
      var id := order[|order| - 1];
      DutiesOut(order[..|order| - 1], byId) + (if id in byId then [byId[id]] else [])
  }

  /** Without duplicate ids the index round-trips: its values in key order are the duties themselves. */
  lemma {:induction false} DutyIndexRoundTrip(duties: seq<Duty>)
    requires Distinct(DutyIds(duties))
    ensures DutiesOut(DutyIndex(duties).0, DutyIndex(duties).1) == duties
    decreases |duties|
  {
    if duties != [] {
      var init := duties[..|duties| - 1];
      var d := duties[|duties| - 1];
      assert duties == init + [d];
      assert Distinct(DutyIds(init)) by {
        forall i, j | 0 <= i < j < |init| ensures DutyIds(init)[i] != DutyIds(init)[j] {
          assert DutyIds(duties)[i] != DutyIds(duties)[j];
        }
      }
      var prev := DutyIndex(init);
      assert DutiesOut(prev.0, prev.1) == init by {
        DutyIndexRoundTrip(init);
      }
      assert d.dutyId !in prev.1 by {
        DutyIndexKeys(init);
        assert !HasDutyId(init, d.dutyId) by {
          forall e | e in init ensures e.dutyId != d.dutyId {
            var i :| 0 <= i < |init| && init[i] == e;
            assert DutyIds(duties)[i] != DutyIds(duties)[|duties| - 1];
          }
        }
      }
      assert d.dutyId !in prev.0 by {
        DutyIndexValid(init);
      }
      var order := prev.0 + [d.dutyId];
      var byId := prev.1[d.dutyId := d];
      assert DutyIndex(duties) == (order, byId);
      assert order[..|order| - 1] == prev.0;
      DutiesOutOther(prev.0, prev.1, d.dutyId, d);
      assert DutiesOut(order, byId) == DutiesOut(prev.0, prev.1) + [d];
    }
  }

  /** Adding a key that the order does not list leaves the listed values alone. */
  lemma {:induction false} DutiesOutOther(order: seq<string>, byId: map<string, Duty>, id: string, d: Duty)
    requires id !in order
    ensures DutiesOut(order, byId[id := d]) == DutiesOut(order, byId)
    decreases |order|
  {
    if order != [] {
      DutiesOutOther(order[..|order| - 1], byId, id, d);
    }
  }

  // ---------------------------------------------------------------- one change

  /** `if d["end_min"] < d["start_min"]: d["end_min"] = d["start_min"]`. */
  function Clamp(start: int, end: int): (e: int)
    ensures e >= start
    ensures end >= start ==> e == end
    ensures end < start ==> e == start
  {
    if end < start then start else end
  }

  /** The change names duty `id` in a change that edits a duty. */
  predicate Touches(ch: Change, id: string) {
    (ch.typeName == Some("extend_duty") || ch.typeName == Some("shift_duty")) && ch.dutyId == Some(id)
  }

  /** Crew entries other than `cid`, and off-requests of other crew members. */
  function WithoutCrew(st: Instance, cid: string): Instance {
    st.(crew := Filter(st.crew, (c: CrewMember) => c.crewId != cid),
        offRequests := Filter(st.offRequests, (r: OffRequest) => r.crewId != cid))
  }

  /** `[r for r in off_requests if not (r["crew_id"] == cid and int(r["day"]) == day)]`. */
  function WithoutRequest(st: Instance, cid: string, day: int): Instance {
    st.(offRequests := Filter(st.offRequests, (r: OffRequest) => !(r.crewId == cid && r.day == day)))
  }

  /** One pass of the loop body of `apply_changes` on its local state. */
  function ApplyChange(st: Instance, ch: Change): Result<Instance, ChangeError> {
    match ch.typeName
    case None => Err(MissingKey("type"))
    case Some(chType) =>
      if chType == "remove_crew" then
        if ch.crewId.None? then Err(MissingKey("crew_id"))
        else Ok(WithoutCrew(st, ch.crewId.value))
      else if chType == "extend_duty" then
        if ch.dutyId.None? then Err(MissingKey("duty_id"))
        else if ch.dutyId.value !in st.dutyById then Err(UnknownDuty(ch.dutyId.value))
        else
          var d := st.dutyById[ch.dutyId.value];
          var d' := d.(endMin := Clamp(d.startMin, d.endMin + ch.deltaEndMin.GetOr(0)));
          Ok(st.(dutyById := st.dutyById[ch.dutyId.value := d']))
      else if chType == "shift_duty" then
        if ch.dutyId.None? then Err(MissingKey("duty_id"))
        else if ch.dutyId.value !in st.dutyById then Err(UnknownDuty(ch.dutyId.value))
        else
          var d := st.dutyById[ch.dutyId.value];
          var start := d.startMin + ch.deltaStartMin.GetOr(0);
          var d' := d.(startMin := start, endMin := Clamp(start, d.endMin + ch.deltaEndMin.GetOr(0)));
          Ok(st.(dutyById := st.dutyById[ch.dutyId.value := d']))
      else if chType == "add_off_request" then
        if ch.crewId.None? then Err(MissingKey("crew_id"))
        else if ch.day.None? then Err(MissingKey("day"))
        else if ch.penalty.None? then Err(MissingKey("penalty"))
        else Ok(st.(offRequests := st.offRequests + [OffRequest(ch.crewId.value, ch.day.value, ch.penalty.value)]))
      else if chType == "remove_off_request" then
        if ch.crewId.None? then Err(MissingKey("crew_id"))
        else if ch.day.None? then Err(MissingKey("day"))
        else Ok(WithoutRequest(st, ch.crewId.value, ch.day.value))
      else
        Err(UnknownChangeType(chType))
  }

  /**
   * `remove_crew` drops exactly the crew entries with the id and every
   * off-request of that crew member, keeping the order of the rest; the
   * duties are untouched.  Without `crew_id` it fails.
   */
  lemma RemoveCrewEffect(st: Instance, ch: Change)
    requires ch.typeName == Some("remove_crew")
    ensures ch.crewId.None? <==> ApplyChange(st, ch) == Err(MissingKey("crew_id"))
    ensures ch.crewId.Some? ==>
      (ApplyChange(st, ch).Ok? &&
       var s := ApplyChange(st, ch).value;
       && (forall m :: m in s.crew <==> m in st.crew && m.crewId != ch.crewId.value)
       && (forall r :: r in s.offRequests <==> r in st.offRequests && r.crewId != ch.crewId.value)
       && s.dutyOrder == st.dutyOrder && s.dutyById == st.dutyById)
  {
    if ch.crewId.Some? {
      var s := ApplyChange(st, ch).value;
      var cid := ch.crewId.value;
      forall m ensures m in s.crew <==> m in st.crew && m.crewId != cid {
        FilterMembership(st.crew, (c: CrewMember) => c.crewId != cid, m);
      }
      forall r ensures r in s.offRequests <==> r in st.offRequests && r.crewId != cid {
        FilterMembership(st.offRequests, (q: OffRequest) => q.crewId != cid, r);
      }
    }
  }

  /**
   * `extend_duty` moves the duty's end by `delta_end_min` (0 when absent),
   * clamped so that it does not end before it starts; nothing else changes.
   * It fails without `duty_id` or on an unknown duty id.
   */
  lemma ExtendDutyEffect(st: Instance, ch: Change)
    requires ch.typeName == Some("extend_duty")
    ensures ch.dutyId.None? ==> ApplyChange(st, ch) == Err(MissingKey("duty_id"))
    ensures ch.dutyId.Some? && ch.dutyId.value !in st.dutyById ==> ApplyChange(st, ch) == Err(UnknownDuty(ch.dutyId.value))
    ensures ch.dutyId.Some? && ch.dutyId.value in st.dutyById ==>
      (ApplyChange(st, ch).Ok? &&
       var id := ch.dutyId.value;
       var old_ := st.dutyById[id];
       var s := ApplyChange(st, ch).value;
       var end := old_.endMin + ch.deltaEndMin.GetOr(0);
       && s.dutyById.Keys == st.dutyById.Keys
       && s.dutyById[id].startMin == old_.startMin
       && s.dutyById[id].endMin >= s.dutyById[id].startMin
       && (end >= old_.startMin ==> s.dutyById[id].endMin == end)
       && (end < old_.startMin ==> s.dutyById[id].endMin == old_.startMin)
       && s.dutyById[id] == old_.(endMin := s.dutyById[id].endMin)
       && (forall other :: other in st.dutyById && other != id ==> s.dutyById[other] == st.dutyById[other])
       && s.crew == st.crew && s.offRequests == st.offRequests && s.dutyOrder == st.dutyOrder)
  {
  }

  /**
   * `shift_duty` moves the start by `delta_start_min` and the end by
   * `delta_end_min` (each 0 when absent), then clamps the end to at least
   * the new start; nothing else changes.
   */
  lemma ShiftDutyEffect(st: Instance, ch: Change)
    requires ch.typeName == Some("shift_duty")
    ensures ch.dutyId.None? ==> ApplyChange(st, ch) == Err(MissingKey("duty_id"))
    ensures ch.dutyId.Some? && ch.dutyId.value !in st.dutyById ==> ApplyChange(st, ch) == Err(UnknownDuty(ch.dutyId.value))
    ensures ch.dutyId.Some? && ch.dutyId.value in st.dutyById ==>
      (ApplyChange(st, ch).Ok? &&
       var id := ch.dutyId.value;
       var old_ := st.dutyById[id];
       var s := ApplyChange(st, ch).value;
       var start := old_.startMin + ch.deltaStartMin.GetOr(0);
       var end := old_.endMin + ch.deltaEndMin.GetOr(0);
       && s.dutyById.Keys == st.dutyById.Keys
       && s.dutyById[id].startMin == start
       && s.dutyById[id].endMin == (if end < start then start else end)
       && s.dutyById[id] == old_.(startMin := start, endMin := s.dutyById[id].endMin)
       && (forall other :: other in st.dutyById && other != id ==> s.dutyById[other] == st.dutyById[other])
       && s.crew == st.crew && s.offRequests == st.offRequests && s.dutyOrder == st.dutyOrder)
  {
  }

  /** `add_off_request` appends exactly one request at the end; a missing key fails, checked in key order. */
  lemma AddOffRequestEffect(st: Instance, ch: Change)
    requires ch.typeName == Some("add_off_request")
    ensures ch.crewId.None? ==> ApplyChange(st, ch) == Err(MissingKey("crew_id"))
    ensures ch.crewId.Some? && ch.day.None? ==> ApplyChange(st, ch) == Err(MissingKey("day"))
    ensures ch.crewId.Some? && ch.day.Some? && ch.penalty.None? ==> ApplyChange(st, ch) == Err(MissingKey("penalty"))
    ensures ch.crewId.Some? && ch.day.Some? && ch.penalty.Some? ==>
      (ApplyChange(st, ch).Ok? &&
       var s := ApplyChange(st, ch).value;
       && |s.offRequests| == |st.offRequests| + 1
       && s.offRequests[..|st.offRequests|] == st.offRequests
       && s.offRequests[|st.offRequests|] == OffRequest(ch.crewId.value, ch.day.value, ch.penalty.value)
       && s.crew == st.crew && s.dutyById == st.dutyById && s.dutyOrder == st.dutyOrder)
  {
    if ch.crewId.Some? && ch.day.Some? && ch.penalty.Some? {
      var s := ApplyChange(st, ch).value;
      assert s.offRequests[..|st.offRequests|] == st.offRequests;
    }
  }

  /**
   * `remove_off_request` drops exactly the requests of that crew member on
   * that day, keeping the others (in order, as every filter does).
   */
  lemma RemoveOffRequestEffect(st: Instance, ch: Change)
    requires ch.typeName == Some("remove_off_request")
    ensures ch.crewId.None? ==> ApplyChange(st, ch) == Err(MissingKey("crew_id"))
    ensures ch.crewId.Some? && ch.day.None? ==> ApplyChange(st, ch) == Err(MissingKey("day"))
    ensures ch.crewId.Some? && ch.day.Some? ==>
      (ApplyChange(st, ch).Ok? &&
       var s := ApplyChange(st, ch).value;
       && (forall r :: r in s.offRequests <==>
       r in st.offRequests && !(r.crewId == ch.crewId.value && r.day == ch.day.value))
       && s.crew == st.crew && s.dutyById == st.dutyById && s.dutyOrder == st.dutyOrder)
  {
    if ch.crewId.Some? && ch.day.Some? {
      var s := ApplyChange(st, ch).value;
      var cid := ch.crewId.value;
      var day := ch.day.value;
      forall r ensures r in s.offRequests <==> r in st.offRequests && !(r.crewId == cid && r.day == day) {
        FilterMembership(st.offRequests, (q: OffRequest) => !(q.crewId == cid && q.day == day), r);
      }
    }
  }

  /** The five change types the generator knows. */
  predicate KnownType(t: string) {
    t == "remove_crew" || t == "extend_duty" || t == "shift_duty" || t == "add_off_request" || t == "remove_off_request"
  }

  /**
   * A change without a `type` key fails with `KeyError`; one whose type is
   * none of the five is rejected with `ValueError`, and only then.
   */
  lemma UnknownTypeFails(st: Instance, ch: Change)
    ensures ch.typeName.None? <==> ApplyChange(st, ch) == Err(MissingKey("type"))
    ensures ch.typeName.Some? ==>
      (ApplyChange(st, ch) == Err(UnknownChangeType(ch.typeName.value)) <==> !KnownType(ch.typeName.value))
  {
  }

  // ---------------------------------------------------------------- the change list

  /** The changes applied in list order; the first failure is the result. */
  function ApplyAll(st: Instance, changes: seq<Change>): Result<Instance, ChangeError>
    decreases |changes|
  {
    if changes == [] then Ok(st)
    else
      match ApplyAll(st, changes[..|changes| - 1])
      case Err(e) => Err(e)
      case Ok(s) => ApplyChange(s, changes[|changes| - 1])
  }

  /** Applying two lists of changes one after the other is applying their concatenation. */
  lemma {:induction false} ApplyAllConcat(st: Instance, c1: seq<Change>, c2: seq<Change>)
    ensures ApplyAll(st, c1 + c2) ==
      match ApplyAll(st, c1)
      case Err(e) => Err(e)
      case Ok(s) => ApplyAll(s, c2)
    decreases |c2|
  {
    if c2 == [] {
      assert c1 + c2 == c1;
    } else {
      var init := c2[..|c2| - 1];
      assert (c1 + c2)[..|c1 + c2| - 1] == c1 + init;
      ApplyAllConcat(st, c1, init);
    }
  }

  /** Once a change fails, the changes after it are never applied: the whole list fails with that error. */
  lemma ErrorAborts(st: Instance, changes: seq<Change>, k: nat, e: ChangeError)
    requires k <= |changes| && ApplyAll(st, changes[..k]) == Err(e)
    ensures ApplyAll(st, changes) == Err(e)
  {
    ApplyAllConcat(st, changes[..k], changes[k..]);
    assert changes[..k] + changes[k..] == changes;
  }

  /** Every duty starts no later than it ends. */
  predicate Ordered(st: Instance) {
    forall id :: id in st.dutyById ==> st.dutyById[id].startMin <= st.dutyById[id].endMin
  }

  /**
   * A change keeps `duty_by_id` a valid dict over the same ids in the same
   * order, keeps duties that start no later than they end that way, and
   * leaves every duty it does not name as it was.
   */
  lemma ApplyChangeKeeps(st: Instance, ch: Change)
    requires ApplyChange(st, ch).Ok?
    ensures var s := ApplyChange(st, ch).value;
      && s.dutyOrder == st.dutyOrder
      && s.dutyById.Keys == st.dutyById.Keys
      && (st.Valid() ==> s.Valid())
      && (Ordered(st) ==> Ordered(s))
      && (forall id :: id in st.dutyById && !Touches(ch, id) ==> s.dutyById[id] == st.dutyById[id])
  {
  }

  /** What a single change keeps, a whole list of changes keeps. */
  lemma {:induction false} ApplyAllKeeps(st: Instance, changes: seq<Change>)
    requires ApplyAll(st, changes).Ok?
    ensures var s := ApplyAll(st, changes).value;
      && s.dutyOrder == st.dutyOrder
      && s.dutyById.Keys == st.dutyById.Keys
      && (st.Valid() ==> s.Valid())
      && (Ordered(st) ==> Ordered(s))
      && (forall id :: id in st.dutyById && (forall i :: 0 <= i < |changes| ==> !Touches(changes[i], id)) ==>
            s.dutyById[id] == st.dutyById[id])
    decreases |changes|
  {
    if changes != [] {
      var init := changes[..|changes| - 1];
      ApplyAllKeeps(st, init);
      var mid := ApplyAll(st, init).value;
      ApplyChangeKeeps(mid, changes[|changes| - 1]);
      forall id | id in st.dutyById && (forall i :: 0 <= i < |changes| ==> !Touches(changes[i], id))
        ensures ApplyAll(st, changes).value.dutyById[id] == st.dutyById[id]
      {
        assert forall i :: 0 <= i < |init| ==> init[i] == changes[i];
      }
    }
  }

  // ---------------------------------------------------------------- apply_changes

  /** The state before the first change: the input lists and the freshly built `duty_by_id`. */
  function Initial(crew: seq<CrewMember>, duties: seq<Duty>, offRequests: seq<OffRequest>): Instance {
    var idx := DutyIndex(duties);
    Instance(crew, idx.0, idx.1, offRequests)
  }

  /** The value `apply_changes` returns, or the error it raises. */
  function Outcome(res: Result<Instance, ChangeError>, scenario: Scenario): Result<Output, ChangeError> {
    match res
    case Err(e) => Err(e)
    case Ok(s) => Ok(Output(s.crew, DutiesOut(s.dutyOrder, s.dutyById), scenario, s.offRequests))
  }

  /** The loop body of `apply_changes`, dispatching on the change type and editing the local state. */
  method ApplyOne(st: Instance, ch: Change) returns (r: Result<Instance, ChangeError>)
    ensures r == ApplyChange(st, ch)
  {
    var crew := st.crew;
    var dutyById := st.dutyById;
    var offRequests := st.offRequests;
    if ch.typeName.None? {
      return Err(MissingKey("type"));
    }
    var chType := ch.typeName.value;
    if chType == "remove_crew" {
      if ch.crewId.None? {
        return Err(MissingKey("crew_id"));
      }
      var cid := ch.crewId.value;
      crew := Filter(crew, (c: CrewMember) => c.crewId != cid);
      offRequests := Filter(offRequests, (r: OffRequest) => r.crewId != cid);
    } else if chType == "extend_duty" {
      if ch.dutyId.None? {
        return Err(MissingKey("duty_id"));
      }
      var dId := ch.dutyId.value;
      var delta := ch.deltaEndMin.GetOr(0);
      if dId !in dutyById {
        return Err(UnknownDuty(dId));
      }
      var d := dutyById[dId];
      d := d.(endMin := d.endMin + delta);
      if d.endMin < d.startMin {
        d := d.(endMin := d.startMin);
      }
      dutyById := dutyById[dId := d];
    } else if chType == "shift_duty" {
      if ch.dutyId.None? {
        return Err(MissingKey("duty_id"));
      }
      var dId := ch.dutyId.value;
      var ds := ch.deltaStartMin.GetOr(0);
      var de := ch.deltaEndMin.GetOr(0);
      if dId !in dutyById {
        return Err(UnknownDuty(dId));
      }
      var d := dutyById[dId];
      d := d.(startMin := d.startMin + ds);
      d := d.(endMin := d.endMin + de);
      if d.endMin < d.startMin {
        d := d.(endMin := d.startMin);
      }
      dutyById := dutyById[dId := d];
    } else if chType == "add_off_request" {
      if ch.crewId.None? {
        return Err(MissingKey("crew_id"));
      } else if ch.day.None? {
        return Err(MissingKey("day"));
      } else if ch.penalty.None? {
        return Err(MissingKey("penalty"));
      }
      offRequests := offRequests + [OffRequest(ch.crewId.value, ch.day.value, ch.penalty.value)];
    } else if chType == "remove_off_request" {
      if ch.crewId.None? {
        return Err(MissingKey("crew_id"));
      }
      var cid := ch.crewId.value;
      if ch.day.None? {
        return Err(MissingKey("day"));
      }
      var day := ch.day.value;
      offRequests := Filter(offRequests, (r: OffRequest) => !(r.crewId == cid && r.day == day));
    } else {
      return Err(UnknownChangeType(chType));
    }
    r := Ok(Instance(crew, st.dutyOrder, dutyById, offRequests));
  }

  /**
   * `apply_changes`: build `duty_by_id`, apply the changes in order, and
   * return the crew, the duties in key order, the scenario object as given
   * and the off-requests; the first failing change is the error.
   */
  method ApplyChanges(crew: seq<CrewMember>, duties: seq<Duty>, scenario: Scenario, offRequests: seq<OffRequest>, changes: seq<Change>)
    returns (r: Result<Output, ChangeError>)
    ensures r == Outcome(ApplyAll(Initial(crew, duties, offRequests), changes), scenario)
    ensures r.Ok? ==> r.value.scenario == scenario
  {
    var st := Initial(crew, duties, offRequests);
    var k := 0;
    while k < |changes|
      invariant 0 <= k <= |changes|
      invariant ApplyAll(Initial(crew, duties, offRequests), changes[..k]) == Ok(st)
    {
      var next := ApplyOne(st, changes[k]);
      assert changes[..k + 1][..k] == changes[..k];
      if next.Err? {
        ErrorAborts(Initial(crew, duties, offRequests), changes, k + 1, next.error);
        return Err(next.error);
      }
      st := next.value;
      k := k + 1;
    }
    assert changes[..|changes|] == changes;
    r := Ok(Output(st.crew, DutiesOut(st.dutyOrder, st.dutyById), scenario, st.offRequests));
  }

  /**
   * The duties `apply_changes` returns: with distinct duty ids and no change
   * naming a duty, they are the input duties unchanged, in input order.
   */
  lemma UntouchedDutiesRoundTrip(crew: seq<CrewMember>, duties: seq<Duty>, scenario: Scenario, offRequests: seq<OffRequest>, changes: seq<Change>)
    requires Distinct(DutyIds(duties))
    requires forall i, id :: 0 <= i < |changes| ==> !Touches(changes[i], id)
    requires ApplyAll(Initial(crew, duties, offRequests), changes).Ok?
    ensures Outcome(ApplyAll(Initial(crew, duties, offRequests), changes), scenario).value.duties == duties
  {
    var st := Initial(crew, duties, offRequests);
    ApplyAllKeeps(st, changes);
    DutyIndexRoundTrip(duties);
    var s := ApplyAll(st, changes).value;
    assert s.dutyById == st.dutyById;
  }
}

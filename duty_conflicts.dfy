/**
 * The conflict detector: two duties conflict for one crew member when their
 * intervals on the absolute minute timeline overlap, or when the gap between
 * the first one's end and the second one's start is shorter than the
 * minimum rest.
 */
module DutyConflicts {
  import opened Domain

  /** Start of the duty in minutes from 00:00 of day 1; a start minute within the day lands on that day. */
  function AbsStart(d: Duty): (t: int)
    ensures 0 <= d.startMin < MinutesPerDay ==> (d.day - 1) * MinutesPerDay <= t < d.day * MinutesPerDay
  {
    (d.day - 1) * MinutesPerDay + d.startMin
  }

  /** End of the duty in minutes from 00:00 of day 1; an end minute up to midnight ends on that day. */
  function AbsEnd(d: Duty): (t: int)
    ensures 0 <= d.endMin <= MinutesPerDay ==> (d.day - 1) * MinutesPerDay <= t <= d.day * MinutesPerDay
  {
    (d.day - 1) * MinutesPerDay + d.endMin
  }

  /** The absolute start gives back the duty's day and start minute. */
  lemma AbsStartDecodes(d: Duty)
    requires 0 <= d.startMin < MinutesPerDay
    ensures AbsStart(d) / MinutesPerDay + 1 == d.day
    ensures AbsStart(d) % MinutesPerDay == d.startMin
  {
    var t := AbsStart(d);
    var q := t / MinutesPerDay;
    var r := t % MinutesPerDay;
    assert t == q * MinutesPerDay + r && 0 <= r < MinutesPerDay;
    assert (q - (d.day - 1)) * MinutesPerDay == d.startMin - r;
  }

  /** Moving to the absolute timeline keeps the duration, and days follow each other. */
  lemma AbsoluteTimeline(d1: Duty, d2: Duty)
    ensures AbsEnd(d1) - AbsStart(d1) == d1.DurationMin()
    ensures d1.day < d2.day && d1.endMin <= MinutesPerDay && 0 <= d2.startMin ==> AbsEnd(d1) <= AbsStart(d2)
  {
    if d1.day < d2.day {
      assert (d2.day - 1) * MinutesPerDay >= d1.day * MinutesPerDay;
    }
  }

  /** The half-open intervals [start, end) overlap. */
  predicate Overlap(d1: Duty, d2: Duty) {
    !(AbsEnd(d1) <= AbsStart(d2) || AbsEnd(d2) <= AbsStart(d1))
  }

  /** Minutes between the earlier duty's end and the later duty's start, when they do not overlap. */
  function RestGap(d1: Duty, d2: Duty): int
    requires !Overlap(d1, d2)
  {
    if AbsEnd(d1) <= AbsStart(d2) then AbsStart(d2) - AbsEnd(d1) else AbsStart(d1) - AbsEnd(d2)
  }

  /**
   * The detector as written: overlap first, then insufficient rest in either
   * order.  For duties that do not end before they start, that is: overlap,
   * or a gap between them shorter than the minimum rest.
   */
  function DutiesConflict(d1: Duty, d2: Duty, minRestMinutes: int): (r: bool)
    ensures Overlap(d1, d2) ==> r
    ensures d1.startMin <= d1.endMin && d2.startMin <= d2.endMin ==>
      (r <==> Overlap(d1, d2) || RestGap(d1, d2) < minRestMinutes)
  {
    var s1, e1 := AbsStart(d1), AbsEnd(d1);
    var s2, e2 := AbsStart(d2), AbsEnd(d2);
    if !(e1 <= s2 || e2 <= s1) then true
    else if e1 <= s2 && e1 + minRestMinutes > s2 then true
    else if e2 <= s1 && e2 + minRestMinutes > s1 then true
    else false
  }

  /** The test does not depend on the order of its two duties. */
  lemma ConflictSymmetric(d1: Duty, d2: Duty, minRestMinutes: int)
    ensures DutiesConflict(d1, d2, minRestMinutes) == DutiesConflict(d2, d1, minRestMinutes)
  {
  }

  /** Without a rest requirement a conflict is an overlap and nothing else. */
  lemma ZeroRestIsOverlap(d1: Duty, d2: Duty)
    ensures DutiesConflict(d1, d2, 0) <==> Overlap(d1, d2)
  {
  }

  /** Raising the minimum rest never removes a conflict. */
  lemma ConflictMonotoneInRest(d1: Duty, d2: Duty, rest1: int, rest2: int)
    requires rest1 <= rest2
    ensures DutiesConflict(d1, d2, rest1) ==> DutiesConflict(d1, d2, rest2)
  {
  }

  /** Lexicographic order on index pairs. */
  predicate PairLt(p: (int, int), q: (int, int)) {
    p.0 < q.0 || (p.0 == q.0 && p.1 < q.1)
  }

  /** Conflicting pairs (i, k) with i < k < j, in ascending k. */
  function RowPairs(duties: seq<Duty>, minRestMinutes: int, i: int, j: int): seq<(int, int)>
    requires 0 <= i < |duties| && i < j <= |duties|
    decreases j
  {
    if j == i + 1 then []
    else
      RowPairs(duties, minRestMinutes, i, j - 1) +
        (if DutiesConflict(duties[i], duties[j - 1], minRestMinutes) then [(i, j - 1)] else [])
  }

  /** Conflicting pairs whose first index is below `i`, in ascending (first, second) order. */
  function PairsBelow(duties: seq<Duty>, minRestMinutes: int, i: int): seq<(int, int)>
    requires 0 <= i <= |duties|
    decreases i
  {
    if i == 0 then []
    else PairsBelow(duties, minRestMinutes, i - 1) + RowPairs(duties, minRestMinutes, i - 1, |duties|)
  }

  /** All conflicting index pairs i < j, in the order the double loop finds them. */
  function ConflictIndexPairs(duties: seq<Duty>, minRestMinutes: int): seq<(int, int)> {
    PairsBelow(duties, minRestMinutes, |duties|)
  }

  /** `pairs` names, position by position, the duty ids of the index pairs `idx`. */
  predicate Labels(duties: seq<Duty>, idx: seq<(int, int)>, pairs: seq<(string, string)>) {
    |pairs| == |idx| &&
    forall k :: 0 <= k < |idx| ==>
      0 <= idx[k].0 < idx[k].1 < |duties| && pairs[k] == (duties[idx[k].0].dutyId, duties[idx[k].1].dutyId)
  }

  lemma LabelsSnoc(duties: seq<Duty>, idx: seq<(int, int)>, pairs: seq<(string, string)>, i: int, j: int)
    requires Labels(duties, idx, pairs) && 0 <= i < j < |duties|
    ensures Labels(duties, idx + [(i, j)], pairs + [(duties[i].dutyId, duties[j].dutyId)])
  {
  }

  method ComputeConflictPairs(duties: seq<Duty>, minRestMinutes: int) returns (pairs: seq<(string, string)>)
    ensures Labels(duties, ConflictIndexPairs(duties, minRestMinutes), pairs)
  {
    pairs := [];
    ghost var idx: seq<(int, int)> := [];
    var n := |duties|;
    var i := 0;
    while i < n
      invariant 0 <= i <= n
      invariant idx == PairsBelow(duties, minRestMinutes, i)
      invariant Labels(duties, idx, pairs)
    {
      ghost var below := idx;
      var j := i + 1;
      while j < n
        invariant i + 1 <= j <= n
        invariant idx == below + RowPairs(duties, minRestMinutes, i, j)
        invariant Labels(duties, idx, pairs)
      {
        if DutiesConflict(duties[i], duties[j], minRestMinutes) {
          LabelsSnoc(duties, idx, pairs, i, j);
          pairs := pairs + [(duties[i].dutyId, duties[j].dutyId)];
          idx := idx + [(i, j)];
        }
        j := j + 1;
      }
      i := i + 1;
    }
  }

  /** `p` is a pair i < j of positions whose duties conflict. */
  predicate ConflictAt(duties: seq<Duty>, minRestMinutes: int, p: (int, int)) {
    0 <= p.0 < p.1 < |duties| && DutiesConflict(duties[p.0], duties[p.1], minRestMinutes)
  }

  /** Ascending in the lexicographic order, stated on every pair of positions. */
  predicate PairsAscending(ps: seq<(int, int)>) {
    forall a, b :: 0 <= a < b < |ps| ==> PairLt(ps[a], ps[b])
  }

  lemma {:induction false} RowPairsMembership(duties: seq<Duty>, minRestMinutes: int, i: int, j: int)
    requires 0 <= i < |duties| && i < j <= |duties|
    ensures forall p :: p in RowPairs(duties, minRestMinutes, i, j) <==>
      p.0 == i && p.1 < j && ConflictAt(duties, minRestMinutes, p)
    decreases j
  {
    if j > i + 1 {
      RowPairsMembership(duties, minRestMinutes, i, j - 1);
    }
  }

  /** A row's pairs all start at `i` and ascend. */
  lemma {:induction false} RowPairsShape(duties: seq<Duty>, minRestMinutes: int, i: int, j: int)
    requires 0 <= i < |duties| && i < j <= |duties|
    ensures forall p :: p in RowPairs(duties, minRestMinutes, i, j) ==> p.0 == i && i < p.1 < j
    ensures PairsAscending(RowPairs(duties, minRestMinutes, i, j))
    decreases j
  {
    if j > i + 1 {
      RowPairsShape(duties, minRestMinutes, i, j - 1);
    }
  }

  /** At most one pair per later index. */
  lemma {:induction false} RowPairsLength(duties: seq<Duty>, minRestMinutes: int, i: int, j: int)
    requires 0 <= i < |duties| && i < j <= |duties|
    ensures |RowPairs(duties, minRestMinutes, i, j)| <= j - i - 1
    decreases j
  {
    if j > i + 1 {
      RowPairsLength(duties, minRestMinutes, i, j - 1);
    }
  }

  /** Triangular numbers: Tri(n) = n(n-1)/2 pairs i < j below n. */
  function Tri(n: nat): nat {
    if n == 0 then 0 else Tri(n - 1) + (n - 1)
  }

  lemma {:induction false} TriClosedForm(n: nat)
    ensures 2 * Tri(n) == n * (n - 1)
  {
    if n > 0 {
      TriClosedForm(n - 1);
    }
  }

  lemma {:induction false} PairsBelowMembership(duties: seq<Duty>, minRestMinutes: int, i: int)
    requires 0 <= i <= |duties|
    ensures forall p :: p in PairsBelow(duties, minRestMinutes, i) <==>
      p.0 < i && ConflictAt(duties, minRestMinutes, p)
    decreases i
  {
    if i > 0 {
      var prev := PairsBelow(duties, minRestMinutes, i - 1);
      var row := RowPairs(duties, minRestMinutes, i - 1, |duties|);
      PairsBelowMembership(duties, minRestMinutes, i - 1);
      RowPairsMembership(duties, minRestMinutes, i - 1, |duties|);
      forall p ensures p in PairsBelow(duties, minRestMinutes, i) <==>
        p.0 < i && ConflictAt(duties, minRestMinutes, p)
      {
        assert p in PairsBelow(duties, minRestMinutes, i) <==> p in prev || p in row;
      }
    }
  }

  lemma {:induction false} PairsBelowFirst(duties: seq<Duty>, minRestMinutes: int, i: int)
    requires 0 <= i <= |duties|
    ensures forall p :: p in PairsBelow(duties, minRestMinutes, i) ==> 0 <= p.0 < i
    decreases i
  {
    if i > 0 {
      PairsBelowFirst(duties, minRestMinutes, i - 1);
      RowPairsShape(duties, minRestMinutes, i - 1, |duties|);
    }
  }

  lemma {:induction false} PairsBelowAscending(duties: seq<Duty>, minRestMinutes: int, i: int)
    requires 0 <= i <= |duties|
    ensures PairsAscending(PairsBelow(duties, minRestMinutes, i))
    decreases i
  {
    if i > 0 {
      var prev := PairsBelow(duties, minRestMinutes, i - 1);
      var row := RowPairs(duties, minRestMinutes, i - 1, |duties|);
      PairsBelowAscending(duties, minRestMinutes, i - 1);
      PairsBelowFirst(duties, minRestMinutes, i - 1);
      RowPairsShape(duties, minRestMinutes, i - 1, |duties|);
      assert PairsBefore(prev, row) by {
        forall p, q | p in prev && q in row ensures PairLt(p, q) {
        }
      }
      PairsSortedConcat(prev, row);
    }
  }

  lemma {:induction false} PairsBelowCount(duties: seq<Duty>, minRestMinutes: int, i: int)
    requires 0 <= i <= |duties|
    ensures |PairsBelow(duties, minRestMinutes, i)| + Tri(|duties| - i) <= Tri(|duties|)
    decreases i
  {
    if i > 0 {
      PairsBelowCount(duties, minRestMinutes, i - 1);
      RowPairsLength(duties, minRestMinutes, i - 1, |duties|);
      assert Tri(|duties| - (i - 1)) == Tri(|duties| - i) + (|duties| - i);
    }
  }

  /** Every pair of `ps` comes before every pair of `qs`. */
  predicate PairsBefore(ps: seq<(int, int)>, qs: seq<(int, int)>) {
    forall p, q :: p in ps && q in qs ==> PairLt(p, q)
  }

  /** Two ascending runs, every pair of the first below every pair of the second, make one ascending run. */
  lemma PairsSortedConcat(ps: seq<(int, int)>, qs: seq<(int, int)>)
    requires PairsAscending(ps) && PairsAscending(qs)
    requires PairsBefore(ps, qs)
    ensures PairsAscending(ps + qs)
  {
    var all := ps + qs;
    forall a, b | 0 <= a < b < |all| ensures PairLt(all[a], all[b]) {
      if b < |ps| {
        assert all[a] == ps[a] && all[b] == ps[b];
      } else if a >= |ps| {
        assert all[a] == qs[a - |ps|] && all[b] == qs[b - |ps|];
      } else {
        assert all[a] in ps && all[b] in qs;
      }
    }
  }

  /**
   * The detector returns exactly the conflicting pairs i < j, each once, in
   * ascending (i, j) order, so at most n(n-1)/2 of them.
   */
  lemma ConflictIndexPairsSpec(duties: seq<Duty>, minRestMinutes: int)
    ensures forall i, j :: (i, j) in ConflictIndexPairs(duties, minRestMinutes) <==>
      0 <= i < j < |duties| && DutiesConflict(duties[i], duties[j], minRestMinutes)
    ensures forall a, b :: 0 <= a < b < |ConflictIndexPairs(duties, minRestMinutes)| ==>
      PairLt(ConflictIndexPairs(duties, minRestMinutes)[a], ConflictIndexPairs(duties, minRestMinutes)[b])
    ensures 2 * |ConflictIndexPairs(duties, minRestMinutes)| <= |duties| * (|duties| - 1)
  {
    PairsBelowMembership(duties, minRestMinutes, |duties|);
    PairsBelowAscending(duties, minRestMinutes, |duties|);
    PairsBelowCount(duties, minRestMinutes, |duties|);
    TriClosedForm(|duties|);
  }
}

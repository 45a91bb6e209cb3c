/**
 * The part of a CP-SAT model that the rostering builders emit, written as
 * data: declared integer variables with their domains, linear constraints,
 * max/min equalities and an optional objective to minimise.  What a model
 * means is the predicate `Satisfies`, an assignment of integers to its
 * variables; the solver's search is not part of this model.
 *
 * A builder names each variable by what it stands for (`X(c, d)` for crew
 * c on duty d, and so on).  The Python builders key their variables the same way in
 * dicts, and every constraint it adds reads the variable currently stored
 * under a key, so naming variables by key loses nothing.
 */
module ConstraintModel {
  import opened Wrappers

  datatype Var =
    | X(crewId: string, dutyId: string)   // 1 iff the crew member works the duty
    | TotalMinutes(crewId: string)        // a crew member's workload
    | MaxLoad
    | MinLoad

  /** `coef * v` inside a linear expression. */
  datatype Term = Term(v: Var, coef: int)

  datatype Cmp = Eq | Le

  datatype Constraint =
    /** sum(lhs) cmp sum(rhs) + offset */
    | Linear(lhs: seq<Term>, cmp: Cmp, rhs: seq<Term>, offset: int)
    /** target == max(args) */
    | MaxEquality(target: Var, args: seq<Var>)
    /** target == min(args) */
    | MinEquality(target: Var, args: seq<Var>)

  /** `NewIntVar(lo, hi, name)`; a Boolean variable is declared with domain 0..1. */
  datatype Decl = Decl(v: Var, lo: int, hi: int)

  datatype CpModel = CpModel(decls: seq<Decl>, constraints: seq<Constraint>, objective: Option<seq<Term>>)

  /** A value for every variable, as `solver.Value` reports them. */
  type Assignment = map<Var, int>

  function Value(a: Assignment, v: Var): int {
    if v in a then a[v] else 0
  }

  /** The value of a linear expression under `a`. */
  function LinearValue(terms: seq<Term>, a: Assignment): int
    decreases |terms|
  {
    if terms == [] then 0
    else LinearValue(terms[..|terms| - 1], a) + terms[|terms| - 1].coef * Value(a, terms[|terms| - 1].v)
  }

  lemma {:induction false} LinearValueAppend(t1: seq<Term>, t2: seq<Term>, a: Assignment)
    ensures LinearValue(t1 + t2, a) == LinearValue(t1, a) + LinearValue(t2, a)
    decreases |t2|
  {
    if t2 != [] {
      assert (t1 + t2)[..|t1 + t2| - 1] == t1 + t2[..|t2| - 1];
      assert (t1 + t2)[|t1 + t2| - 1] == t2[|t2| - 1];
      LinearValueAppend(t1, t2[..|t2| - 1], a);
      var last := t2[|t2| - 1];
      assert LinearValue(t1 + t2, a) == LinearValue(t1 + t2[..|t2| - 1], a) + last.coef * Value(a, last.v);
    } else {
      assert t1 + t2 == t1;
    }
  }

  /** Every term has coefficient 1 and a 0/1 variable. */
  predicate UnitTerms(terms: seq<Term>, a: Assignment) {
    forall i :: 0 <= i < |terms| ==> terms[i].coef == 1 && 0 <= Value(a, terms[i].v) <= 1
  }

  /** A sum of 0/1 variables lies between 0 and the number of variables. */
  lemma {:induction false} UnitSumBounds(terms: seq<Term>, a: Assignment)
    requires UnitTerms(terms, a)
    ensures 0 <= LinearValue(terms, a) <= |terms|
    decreases |terms|
  {
    if terms != [] {
      UnitSumBounds(terms[..|terms| - 1], a);
    }
  }

  predicate Holds(c: Constraint, a: Assignment) {
    match c
    case Linear(lhs, cmp, rhs, offset) =>
      (match cmp
       case Eq => LinearValue(lhs, a) == LinearValue(rhs, a) + offset
       case Le => LinearValue(lhs, a) <= LinearValue(rhs, a) + offset)
    case MaxEquality(target, args) =>
      (exists i :: 0 <= i < |args| && Value(a, args[i]) == Value(a, target)) &&
      (forall i :: 0 <= i < |args| ==> Value(a, args[i]) <= Value(a, target))
    case MinEquality(target, args) =>
      (exists i :: 0 <= i < |args| && Value(a, args[i]) == Value(a, target)) &&
      (forall i :: 0 <= i < |args| ==> Value(a, target) <= Value(a, args[i]))
  }

  predicate AllHold(cs: seq<Constraint>, a: Assignment) {
    forall i :: 0 <= i < |cs| ==> Holds(cs[i], a)
  }

  lemma AllHoldAppend(cs1: seq<Constraint>, cs2: seq<Constraint>, a: Assignment)
    ensures AllHold(cs1 + cs2, a) <==> AllHold(cs1, a) && AllHold(cs2, a)
  {
    if AllHold(cs1, a) && AllHold(cs2, a) {
      forall i | 0 <= i < |cs1 + cs2| ensures Holds((cs1 + cs2)[i], a) {
        if i >= |cs1| { assert (cs1 + cs2)[i] == cs2[i - |cs1|]; }
      }
    }
    if AllHold(cs1 + cs2, a) {
      forall i | 0 <= i < |cs1| ensures Holds(cs1[i], a) {
        assert (cs1 + cs2)[i] == cs1[i];
      }
      forall i | 0 <= i < |cs2| ensures Holds(cs2[i], a) {
        assert (cs1 + cs2)[i + |cs1|] == cs2[i];
      }
    }
  }

  lemma AllHoldSnoc(cs: seq<Constraint>, c: Constraint, a: Assignment)
    ensures AllHold(cs + [c], a) <==> AllHold(cs, a) && Holds(c, a)
  {
    AllHoldAppend(cs, [c], a);
    assert AllHold([c], a) <==> Holds([c][0], a);
  }

  function DeclaredVars(decls: seq<Decl>): set<Var> {
    set i | 0 <= i < |decls| :: decls[i].v
  }

  /** Every declared variable has a value within its declared domain. */
  predicate InDomain(decls: seq<Decl>, a: Assignment) {
    forall i :: 0 <= i < |decls| ==> decls[i].v in a && decls[i].lo <= a[decls[i].v] <= decls[i].hi
  }

  /** `a` is a solution of `m`: it values exactly the declared variables, within their domains, and meets every constraint. */
  predicate Satisfies(m: CpModel, a: Assignment) {
    a.Keys == DeclaredVars(m.decls) && InDomain(m.decls, a) && AllHold(m.constraints, a)
  }

  /** A solution of a model whose declarations and constraints extend another's also meets the smaller model's. */
  lemma SatisfiesPrefix(d1: seq<Decl>, d2: seq<Decl>, c1: seq<Constraint>, c2: seq<Constraint>, obj: Option<seq<Term>>, a: Assignment)
    requires Satisfies(CpModel(d1 + d2, c1 + c2, obj), a)
    ensures InDomain(d1, a) && AllHold(c1, a)
    ensures InDomain(d2, a) && AllHold(c2, a)
    ensures forall v :: v in a <==> v in DeclaredVars(d1) || v in DeclaredVars(d2)
  {
    forall i | 0 <= i < |d1| ensures d1[i].v in a && d1[i].lo <= a[d1[i].v] <= d1[i].hi {
      assert (d1 + d2)[i] == d1[i];
    }
    forall i | 0 <= i < |d2| ensures d2[i].v in a && d2[i].lo <= a[d2[i].v] <= d2[i].hi {
      assert (d1 + d2)[i + |d1|] == d2[i];
    }
    forall v | v in a ensures v in DeclaredVars(d1) || v in DeclaredVars(d2) {
      var i :| 0 <= i < |d1 + d2| && (d1 + d2)[i].v == v;
      if i >= |d1| {
        assert d2[i - |d1|].v == v;
      }
    }
    forall v | v in DeclaredVars(d2) ensures v in a {
      var i :| 0 <= i < |d2| && d2[i].v == v;
      assert (d1 + d2)[i + |d1|].v == v;
    }
    AllHoldAppend(c1, c2, a);
  }

  /** The value of the objective under `a`; a model without one scores 0. */
  function ObjectiveValue(m: CpModel, a: Assignment): int {
    match m.objective
    case None => 0
    case Some(terms) => LinearValue(terms, a)
  }
}

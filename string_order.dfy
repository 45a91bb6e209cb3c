/**
 * Python's ordering of `str` values (code point by code point, a proper
 * prefix first) and the built-in `sorted` on a list of strings.
 */
module StringOrder {

  /** `a <= b` on Python strings. */
  predicate StrLe(a: string, b: string)
    decreases |a|
  {
    if a == [] then true
    else if b == [] then false
    else if a[0] != b[0] then a[0] < b[0]
    else StrLe(a[1..], b[1..])
  }

  /** `a < b` on Python strings. */
  predicate StrLt(a: string, b: string) {
    StrLe(a, b) && a != b
  }

  lemma {:induction false} StrLeReflexive(a: string)
    ensures StrLe(a, a)
    decreases |a|
  {
    if a != [] {
      StrLeReflexive(a[1..]);
    }
  }

  lemma {:induction false} StrLeTotal(a: string, b: string)
    ensures StrLe(a, b) || StrLe(b, a)
    decreases |a|
  {
    if a != [] && b != [] && a[0] == b[0] {
      StrLeTotal(a[1..], b[1..]);
    }
  }

  lemma {:induction false} StrLeAntisymmetric(a: string, b: string)
    requires StrLe(a, b) && StrLe(b, a)
    ensures a == b
    decreases |a|
  {
    if a != [] && b != [] {
      StrLeAntisymmetric(a[1..], b[1..]);
      assert a == [a[0]] + a[1..] && b == [b[0]] + b[1..];
    }
  }

  lemma {:induction false} StrLeTransitive(a: string, b: string, c: string)
    requires StrLe(a, b) && StrLe(b, c)
    ensures StrLe(a, c)
    decreases |a|
  {
    if a != [] && b != [] && c != [] && a[0] == b[0] && b[0] == c[0] {
      StrLeTransitive(a[1..], b[1..], c[1..]);
    }
  }

  /** Ascending under Python's string order, stated on every pair. */
  predicate SortedStrings(s: seq<string>) {
    forall i, j :: 0 <= i < j < |s| ==> StrLe(s[i], s[j])
  }

  /** A lower bound of `t` and of `x` is a lower bound of any rearrangement of `t` plus `x`. */
  lemma LowerBoundCarries(lo: string, t: seq<string>, x: string, r: seq<string>)
    requires forall k :: 0 <= k < |t| ==> StrLe(lo, t[k])
    requires StrLe(lo, x)
    requires multiset(r) == multiset(t) + multiset{x}
    ensures forall k :: 0 <= k < |r| ==> StrLe(lo, r[k])
  {
    forall k | 0 <= k < |r| ensures StrLe(lo, r[k]) {
      assert r[k] in multiset(r);
      if r[k] != x {
        assert r[k] in t;
      }
    }
  }

  /** Insert `x` into an ascending list, after every element not above it. */
  function Insert(x: string, s: seq<string>): (r: seq<string>)
    requires SortedStrings(s)
    ensures multiset(r) == multiset(s) + multiset{x}
    ensures SortedStrings(r)
  {
    if s == [] then [x]
    else if StrLe(s[0], x) then
      var rest := Insert(x, s[1..]);
      assert forall k :: 0 <= k < |s[1..]| ==> StrLe(s[0], s[1..][k]);
      LowerBoundCarries(s[0], s[1..], x, rest);
      assert s == [s[0]] + s[1..];
      [s[0]] + rest
    else
      StrLeTotal(s[0], x);
      forall k | 0 <= k < |s| ensures StrLe(x, s[k]) {
        if k > 0 { StrLeTransitive(x, s[0], s[k]); } else { assert StrLe(x, s[0]); }
      }
      [x] + s
  }

  /** Python's `sorted(s)` for a list of strings. */
  function SortStrings(s: seq<string>): (r: seq<string>)
    ensures multiset(r) == multiset(s)
    ensures SortedStrings(r)
  {
    if s == [] then []
    else
      assert s == [s[0]] + s[1..];
      Insert(s[0], SortStrings(s[1..]))
  }
}

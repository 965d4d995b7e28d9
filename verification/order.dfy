/**
 Python's ordering of `str` values (lexicographic by code point) and
 `sorted(...)` of a set of strings: the strictly increasing sequence holding
 exactly the set's elements.
 */
module Order {

  /** `a < b` on Python strings. */
  predicate Less(a: string, b: string)
    decreases |a|
  {
    if a == [] then b != []
    else if b == [] then false
    else a[0] < b[0] || (a[0] == b[0] && Less(a[1..], b[1..]))
  }

  lemma {:induction false} LessIrreflexive(a: string)
    ensures !Less(a, a)
    decreases |a|
  {
    if a != [] {
      LessIrreflexive(a[1..]);
    }
  }

  lemma {:induction false} LessTransitive(a: string, b: string, c: string)
    requires Less(a, b) && Less(b, c)
    ensures Less(a, c)
    decreases |a|
  {
    if a != [] && a[0] == b[0] && b[0] == c[0] {
      LessTransitive(a[1..], b[1..], c[1..]);
    }
  }

  lemma {:induction false} LessTotal(a: string, b: string)
    ensures a == b || Less(a, b) || Less(b, a)
    decreases |a|
  {
    if a != [] && b != [] && a[0] == b[0] {
      LessTotal(a[1..], b[1..]);
      if a[1..] == b[1..] {
        assert a == [a[0]] + a[1..] && b == [b[0]] + b[1..];
      }
    }
  }

  lemma LessAsymmetric(a: string, b: string)
    requires Less(a, b)
    ensures !Less(b, a)
  {
    if Less(b, a) {
      LessTransitive(a, b, a);
      LessIrreflexive(a);
    }
  }

  /** The set of elements of a sequence (`set(xs)`). */
  function Elems<T>(xs: seq<T>): set<T> {
    set x | x in xs
  }

  lemma ElemsNonEmpty<T>(xs: seq<T>)
    requires xs != []
    ensures Elems(xs) != {}
  {
    assert xs[0] in Elems(xs);
  }

  /** Strictly increasing, hence free of duplicates. */
  predicate StrictlySorted(xs: seq<string>) {
    forall i, j :: 0 <= i < j < |xs| ==> Less(xs[i], xs[j])
  }

  lemma SortedDistinct(xs: seq<string>, i: int, j: int)
    requires StrictlySorted(xs)
    requires 0 <= i < |xs| && 0 <= j < |xs| && i != j
    ensures xs[i] != xs[j]
  {
    if i < j {
      LessIrreflexive(xs[i]);
    } else {
      LessIrreflexive(xs[j]);
    }
  }

  /** `m` is the least element of `s`. */
  predicate IsLeast(m: string, s: set<string>) {
    m in s && forall y :: y in s ==> m == y || Less(m, y)
  }

  lemma {:induction false} LeastExists(s: set<string>)
    requires s != {}
    ensures exists m :: IsLeast(m, s)
    decreases |s|
  {
    var x :| x in s;
    if s == {x} {
      assert IsLeast(x, s);
    } else {
      LeastExists(s - {x});
      var m :| IsLeast(m, s - {x});
      LessTotal(m, x);
      if Less(x, m) {
        forall y | y in s ensures x == y || Less(x, y) {
          if y != x {
            assert m == y || Less(m, y);
            if m != y { LessTransitive(x, m, y); }
          }
        }
        assert IsLeast(x, s);
      } else {
        assert IsLeast(m, s);
      }
    }
  }

  lemma LeastUnique(m: string, m': string, s: set<string>)
    requires IsLeast(m, s) && IsLeast(m', s)
    ensures m == m'
  {
    if m != m' {
      LessAsymmetric(m, m');
    }
  }

  lemma ConsSorted(m: string, rest: seq<string>)
    requires StrictlySorted(rest)
    requires forall y :: y in rest ==> Less(m, y)
    ensures StrictlySorted([m] + rest)
    ensures Elems([m] + rest) == {m} + Elems(rest)
  {
    var r := [m] + rest;
    forall i, j | 0 <= i < j < |r| ensures Less(r[i], r[j]) {
      if i == 0 {
        assert r[j] == rest[j - 1];
      } else {
        assert r[i] == rest[i - 1] && r[j] == rest[j - 1];
      }
    }
  }

  /** `sorted(s)` for a set of strings. */
  function SortedOf(s: set<string>): (r: seq<string>)
    ensures StrictlySorted(r)
    ensures Elems(r) == s
    ensures |r| == |s|
    decreases |s|
  {
    if s == {} then []
    else
      LeastExists(s);
      assert forall m, m' :: IsLeast(m, s) && IsLeast(m', s) ==> m == m' by {
        forall m, m' | IsLeast(m, s) && IsLeast(m', s) ensures m == m' { LeastUnique(m, m', s); }
      }
      var m :| IsLeast(m, s);
      var rest := SortedOf(s - {m});
      assert forall y :: y in rest ==> Less(m, y) by {
        forall y | y in rest ensures Less(m, y) { assert y in Elems(rest); }
      }
      ConsSorted(m, rest);
      [m] + rest
  }

  /** A sorted, duplicate-free listing of a set is unique. */
  lemma {:induction false} SortedUnique(a: seq<string>, b: seq<string>)
    requires StrictlySorted(a) && StrictlySorted(b)
    requires Elems(a) == Elems(b)
    ensures a == b
    decreases |a|
  {
    if a != [] {
      assert b != [] by { assert a[0] in Elems(b); }
      assert IsLeast(a[0], Elems(a)) by {
        forall y | y in Elems(a) ensures a[0] == y || Less(a[0], y) {
          var j :| 0 <= j < |a| && a[j] == y;
        }
      }
      assert IsLeast(b[0], Elems(b)) by {
        forall y | y in Elems(b) ensures b[0] == y || Less(b[0], y) {
          var j :| 0 <= j < |b| && b[j] == y;
        }
      }
      LeastUnique(a[0], b[0], Elems(a));
      assert Elems(a[1..]) == Elems(a) - {a[0]} by {
        forall j | 1 <= j < |a| ensures a[j] != a[0] { SortedDistinct(a, 0, j); }
        assert a == [a[0]] + a[1..];
      }
      assert Elems(b[1..]) == Elems(b) - {b[0]} by {
        forall j | 1 <= j < |b| ensures b[j] != b[0] { SortedDistinct(b, 0, j); }
        assert b == [b[0]] + b[1..];
      }
      SortedUnique(a[1..], b[1..]);
      assert a == [a[0]] + a[1..] && b == [b[0]] + b[1..];
    } else {
      if b != [] {
        ElemsNonEmpty(b);
      }
    }
  }

  /** Sorting a list that is already strictly sorted gives it back. */
  lemma SortedOfSorted(xs: seq<string>)
    requires StrictlySorted(xs)
    ensures SortedOf(Elems(xs)) == xs
  {
    SortedUnique(SortedOf(Elems(xs)), xs);
  }
}

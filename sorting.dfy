/** Python's `sorted()` applied to a set: the elements once each, in ascending order. */
module Sorting {

  predicate IntsAscending(r: seq<int>) {
    forall i, j :: 0 <= i < j < |r| ==> r[i] < r[j]
  }

  /** Some element of a non-empty set. */
  ghost function SomeElement<T>(s: set<T>): (x: T)
    requires s != {}
    ensures x in s
  {
    var x :| x in s; x
  }

  /** `m` is the smallest element of `s`. */
  predicate IsLeast(m: int, s: set<int>) {
    m in s && forall y :: y in s ==> m <= y
  }

  lemma {:induction false} LeastExists(s: set<int>)
    requires s != {}
    ensures exists m :: IsLeast(m, s)
    decreases |s|
  {
    var x := SomeElement(s);
    if s != {x} {
      LeastExists(s - {x});
      var m' :| IsLeast(m', s - {x});
      var m := if x < m' then x else m';
      forall y | y in s ensures m <= y {
        if y != x { assert y in s - {x}; }
      }
      assert IsLeast(m, s);
    } else {
      assert IsLeast(x, s);
    }
  }

  /** `sorted(s)` for a set of integers: its elements, each once, in ascending order. */
  function SortedInts(s: set<int>): (r: seq<int>)
    ensures |r| == |s| && IntsAscending(r)
    ensures forall x :: x in r <==> x in s
    decreases |s|
  {
    if s == {} then []
    else
      LeastExists(s);
      var m :| IsLeast(m, s);
      var rest := SortedInts(s - {m});
      assert forall y :: y in rest ==> m < y;
      [m] + rest
  }

  /** Python's `<` on strings: lexicographic on code points. */
  predicate LexLess(a: string, b: string)
  {
    if a == [] then b != []
    else if b == [] then false
    else a[0] < b[0] || (a[0] == b[0] && LexLess(a[1..], b[1..]))
  }

  lemma {:induction false} LexIrreflexive(a: string)
    ensures !LexLess(a, a)
  {
    if a != [] { LexIrreflexive(a[1..]); }
  }

  lemma {:induction false} LexTransitive(a: string, b: string, c: string)
    requires LexLess(a, b) && LexLess(b, c)
    ensures LexLess(a, c)
  {
    if a != [] && b != [] && c != [] && a[0] == b[0] == c[0] {
      LexTransitive(a[1..], b[1..], c[1..]);
    }
  }

  lemma {:induction false} LexConnected(a: string, b: string)
    requires a != b
    ensures LexLess(a, b) || LexLess(b, a)
  {
    if a != [] && b != [] && a[0] == b[0] {
      assert a == [a[0]] + a[1..] && b == [b[0]] + b[1..];
      LexConnected(a[1..], b[1..]);
    }
  }

  lemma LexTotal()
    ensures forall a, b :: a != b ==> LexLess(a, b) || LexLess(b, a)
  {
    forall a, b | a != b ensures LexLess(a, b) || LexLess(b, a) { LexConnected(a, b); }
  }

  predicate StringsAscending(r: seq<string>) {
    forall i, j :: 0 <= i < j < |r| ==> LexLess(r[i], r[j])
  }

  /** `m` is the smallest element of `s` in Python's string order. */
  predicate IsLeastString(m: string, s: set<string>) {
    m in s && forall y :: y in s ==> !LexLess(y, m)
  }

  lemma {:induction false} LeastStringExists(s: set<string>)
    requires s != {}
    ensures exists m :: IsLeastString(m, s)
    decreases |s|
  {
    var x := SomeElement(s);
    if s == {x} {
      LexIrreflexive(x);
      assert IsLeastString(x, s);
    } else {
      LeastStringExists(s - {x});
      var m' :| IsLeastString(m', s - {x});
      if LexLess(x, m') {
        forall y | y in s ensures !LexLess(y, x) {
          if y == x { LexIrreflexive(x); }
          else if LexLess(y, x) { assert y in s - {x}; LexTransitive(y, x, m'); }
        }
        assert IsLeastString(x, s);
      } else {
        forall y | y in s ensures !LexLess(y, m') {
          if y != x { assert y in s - {x}; }
        }
        assert IsLeastString(m', s);
      }
    }
  }

  /** `sorted(s)` for a set of strings: its elements, each once, in ascending order. */
  function SortedStrings(s: set<string>): (r: seq<string>)
    ensures |r| == |s| && StringsAscending(r)
    ensures forall x :: x in r <==> x in s
    decreases |s|
  {
    if s == {} then []
    else
      LeastStringExists(s);
      LexTotal();
      var m :| IsLeastString(m, s);
      var rest := SortedStrings(s - {m});
      assert forall y :: y in rest ==> LexLess(m, y);
      [m] + rest
  }
}

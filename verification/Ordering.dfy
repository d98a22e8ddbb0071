/** Stable sorting by a total preorder, and the lexicographic order of strings. */
module Ordering {

  ghost predicate TotalPreorder<T(!new)>(leq: (T, T) -> bool) {
    && (forall x, y :: leq(x, y) || leq(y, x))
    && (forall x, y, z :: leq(x, y) && leq(y, z) ==> leq(x, z))
  }

  ghost predicate Sorted<T>(leq: (T, T) -> bool, s: seq<T>) {
    forall i, j :: 0 <= i < j < |s| ==> leq(s[i], s[j])
  }

  function Insert<T>(leq: (T, T) -> bool, s: seq<T>, x: T): seq<T> {
    if s == [] || leq(s[|s| - 1], x) then s + [x]
    else Insert(leq, s[..|s| - 1], x) + [s[|s| - 1]]
  }

  /** Stable: elements that compare equal keep their order. */
  function Sort<T>(leq: (T, T) -> bool, s: seq<T>): seq<T> {
    if s == [] then [] else Insert(leq, Sort(leq, s[..|s| - 1]), s[|s| - 1])
  }

  lemma {:induction false} InsertKeepsSorted<T(!new)>(leq: (T, T) -> bool, s: seq<T>, x: T)
    requires TotalPreorder(leq) && Sorted(leq, s)
    ensures Sorted(leq, Insert(leq, s, x)) && multiset(Insert(leq, s, x)) == multiset(s) + multiset{x}
  {
    if s == [] {
    } else if leq(s[|s| - 1], x) {
      forall i | 0 <= i < |s|
        ensures leq(s[i], x)
      {
        assert i == |s| - 1 || leq(s[i], s[|s| - 1]);
      }
    } else {
      var front, last := s[..|s| - 1], s[|s| - 1];
      var r := Insert(leq, front, x);
      InsertKeepsSorted(leq, front, x);
      assert s == front + [last];
      forall i | 0 <= i < |r|
        ensures leq(r[i], last)
      {
        assert r[i] in multiset(r);
        assert r[i] == x || r[i] in front;
      }
    }
  }

  lemma {:induction false} SortIsSortedPermutation<T(!new)>(leq: (T, T) -> bool, s: seq<T>)
    requires TotalPreorder(leq)
    ensures Sorted(leq, Sort(leq, s)) && multiset(Sort(leq, s)) == multiset(s)
    ensures |Sort(leq, s)| == |s|
  {
    if s != [] {
      var front, last := s[..|s| - 1], s[|s| - 1];
      SortIsSortedPermutation(leq, front);
      InsertKeepsSorted(leq, Sort(leq, front), last);
      assert s == front + [last];
    }
    assert |multiset(Sort(leq, s))| == |multiset(s)|;
  }

  lemma {:induction false} InsertAfterPrefix<T>(leq: (T, T) -> bool, p: seq<T>, q: seq<T>, x: T)
    requires forall y :: y in p ==> leq(y, x)
    ensures Insert(leq, p + q, x) == p + Insert(leq, q, x)
  {
    if q == [] {
      assert p + q == p;
    } else if leq(q[|q| - 1], x) {
    } else {
      InsertAfterPrefix(leq, p, q[..|q| - 1], x);
      assert (p + q)[..|p + q| - 1] == p + q[..|q| - 1];
    }
  }

  /** Sorting a list followed by elements that come after all of it. */
  lemma {:induction false} SortAppends<T>(leq: (T, T) -> bool, a: seq<T>, b: seq<T>)
    requires forall x, y :: x in Sort(leq, a) && y in b ==> leq(x, y)
    ensures Sort(leq, a + b) == Sort(leq, a) + Sort(leq, b)
  {
    if b == [] {
      assert a + b == a;
    } else {
      var front, last := b[..|b| - 1], b[|b| - 1];
      SortAppends(leq, a, front);
      assert (a + b)[..|a + b| - 1] == a + front;
      InsertAfterPrefix(leq, Sort(leq, a), Sort(leq, front), last);
    }
  }

  // ---- Stability ----

  ghost predicate Before<T(!new)>(s: seq<T>, x: T, y: T) {
    exists i, j :: 0 <= i < j < |s| && s[i] == x && s[j] == y
  }

  /** Insertion splits the sequence at the end of what compares before the new element. */
  lemma {:induction false} InsertSplits<T(!new)>(leq: (T, T) -> bool, s: seq<T>, x: T) returns (k: nat)
    ensures k <= |s| && Insert(leq, s, x) == s[..k] + [x] + s[k..]
    ensures forall j :: k <= j < |s| ==> !leq(s[j], x)
  {
    k := |s|;
    if s != [] && !leq(s[|s| - 1], x) {
      var front, last := s[..|s| - 1], s[|s| - 1];
      k := InsertSplits(leq, front, x);
      assert s[..k] == front[..k] && s[k..] == front[k..] + [last];
    }
  }

  lemma InsertKeepsBefore<T(!new)>(leq: (T, T) -> bool, s: seq<T>, x: T, a: T, b: T)
    requires Before(s, a, b)
    ensures Before(Insert(leq, s, x), a, b)
  {
    var k := InsertSplits(leq, s, x);
    var i, j :| 0 <= i < j < |s| && s[i] == a && s[j] == b;
    var r := Insert(leq, s, x);
    assert r[if i < k then i else i + 1] == a && r[if j < k then j else j + 1] == b;
  }

  lemma InsertComesAfter<T(!new)>(leq: (T, T) -> bool, s: seq<T>, x: T, a: T)
    requires a in s && leq(a, x)
    ensures Before(Insert(leq, s, x), a, x)
  {
    var k := InsertSplits(leq, s, x);
    var i :| 0 <= i < |s| && s[i] == a;
    assert i < k && Insert(leq, s, x)[i] == a && Insert(leq, s, x)[k] == x;
  }

  /** Elements already in order stay in order, also when they compare equal. */
  lemma {:induction false} SortIsStable<T(!new)>(leq: (T, T) -> bool, s: seq<T>, i: nat, j: nat)
    requires TotalPreorder(leq) && i < j < |s| && leq(s[i], s[j])
    ensures Before(Sort(leq, s), s[i], s[j])
  {
    var n := |s| - 1;
    var front := s[..n];
    if j < n {
      SortIsStable(leq, front, i, j);
      InsertKeepsBefore(leq, Sort(leq, front), s[n], s[i], s[j]);
    } else {
      SortIsSortedPermutation(leq, front);
      assert front[i] in multiset(front) && s[i] in Sort(leq, front);
      InsertComesAfter(leq, Sort(leq, front), s[n], s[i]);
    }
  }

  /** Elements of which one compares strictly before the other come out in that order. */
  lemma SortOrders<T(!new)>(leq: (T, T) -> bool, s: seq<T>, x: T, y: T)
    requires TotalPreorder(leq) && x in s && y in s && leq(x, y) && !leq(y, x)
    ensures Before(Sort(leq, s), x, y)
  {
    SortIsSortedPermutation(leq, s);
    assert x in multiset(s) && y in multiset(s);
    var i :| 0 <= i < |s| && Sort(leq, s)[i] == x;
    var j :| 0 <= j < |s| && Sort(leq, s)[j] == y;
  }

  // ---- Strings ----

  predicate StringLeq(a: string, b: string) {
    a == "" || (b != "" && (a[0] < b[0] || (a[0] == b[0] && StringLeq(a[1..], b[1..]))))
  }

  lemma {:induction false} StringLeqTotal(a: string, b: string)
    ensures StringLeq(a, b) || StringLeq(b, a)
  {
    if a != "" && b != "" {
      StringLeqTotal(a[1..], b[1..]);
    }
  }

  lemma {:induction false} StringLeqTransitive(a: string, b: string, c: string)
    requires StringLeq(a, b) && StringLeq(b, c)
    ensures StringLeq(a, c)
  {
    if a != "" && b != "" && c != "" && a[0] == b[0] == c[0] {
      StringLeqTransitive(a[1..], b[1..], c[1..]);
    }
  }

  lemma {:induction false} StringLeqAntisymmetric(a: string, b: string)
    requires StringLeq(a, b) && StringLeq(b, a)
    ensures a == b
  {
    if a != "" && b != "" {
      StringLeqAntisymmetric(a[1..], b[1..]);
      assert a == [a[0]] + a[1..] && b == [b[0]] + b[1..];
    }
  }

  /** Tuples compared by a descending real key, then by an ascending string. */
  predicate KeyLeq(x: (real, string), y: (real, string)) {
    x.0 > y.0 || (x.0 == y.0 && StringLeq(x.1, y.1))
  }

  lemma KeyLeqOrders(x: (real, string), y: (real, string), z: (real, string))
    ensures KeyLeq(x, y) || KeyLeq(y, x)
    ensures KeyLeq(x, y) && KeyLeq(y, z) ==> KeyLeq(x, z)
    ensures KeyLeq(x, y) && KeyLeq(y, x) ==> x == y
  {
    StringLeqTotal(x.1, y.1);
    if StringLeq(x.1, y.1) && StringLeq(y.1, z.1) {
      StringLeqTransitive(x.1, y.1, z.1);
    }
    if StringLeq(x.1, y.1) && StringLeq(y.1, x.1) {
      StringLeqAntisymmetric(x.1, y.1);
    }
  }
}

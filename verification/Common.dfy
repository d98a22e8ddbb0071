/** Types and small facts shared by the other modules. */
module Common {

  /** Node, item and evidence identifiers. `str` of a UUID is fixed-width hexadecimal,
      so the order of identifiers as numbers is their order as strings. */
  type Uuid = nat

  datatype Option<+T> = None | Some(value: T)

  datatype Result<+T, +E> = Ok(value: T) | Err(error: E)

  /** Least integer not below `x`. */
  function Ceil(x: real): int {
    -((-x).Floor)
  }

  lemma CeilIsLeast(x: real, m: int)
    ensures Ceil(x) <= m <==> x <= m as real
  {
    assert (-x).Floor as real <= -x < (-x).Floor as real + 1.0;
  }

  function SetOf<T>(s: seq<T>): set<T> {
    set x | x in s
  }

  lemma SetOfNext<T>(s: seq<T>, k: nat)
    requires k < |s|
    ensures SetOf(s[..k + 1]) == SetOf(s[..k]) + {s[k]}
    ensures Distinct(s) ==> s[k] !in SetOf(s[..k])
  {
    assert s[..k + 1] == s[..k] + [s[k]];
  }

  ghost predicate Distinct<T>(s: seq<T>) {
    forall i, j :: 0 <= i < j < |s| ==> s[i] != s[j]
  }

  lemma {:induction false} DistinctSize<T>(s: seq<T>)
    requires Distinct(s)
    ensures |SetOf(s)| == |s|
  {
    if s != [] {
      var n := |s| - 1;
      DistinctSize(s[..n]);
      SetOfNext(s, n);
      assert s[..n + 1] == s;
    }
  }

  lemma WithoutOne<T>(s: seq<T>, k: nat)
    requires k < |s|
    ensures multiset(s) == multiset(s[..k] + s[k + 1..]) + multiset{s[k]}
  {
    assert s == s[..k] + [s[k]] + s[k + 1..];
  }

  lemma LastSplits<T>(s: seq<T>)
    requires s != []
    ensures multiset(s) == multiset(s[..|s| - 1]) + multiset{s[|s| - 1]}
  {
    assert s == s[..|s| - 1] + [s[|s| - 1]];
  }

  lemma {:induction false} PermutationIsDistinct<T>(a: seq<T>, b: seq<T>)
    requires Distinct(a) && multiset(a) == multiset(b)
    ensures Distinct(b)
  {
    forall i, j | 0 <= i < j < |b|
      ensures b[i] != b[j]
    {
      WithoutOne(b, i);
      var rest := b[..i] + b[i + 1..];
      assert rest[j - 1] == b[j] && b[j] in multiset(rest);
      assert b[i] in multiset(a);
      var k :| 0 <= k < |a| && a[k] == b[i];
      WithoutOne(a, k);
      assert a[k] !in a[..k] + a[k + 1..];
      CancelOne(multiset(rest), multiset(a[..k] + a[k + 1..]), b[i]);
    }
  }

  lemma SameMembers<T>(a: seq<T>, b: seq<T>)
    requires multiset(a) == multiset(b)
    ensures forall x :: x in a <==> x in b
  {
    assert forall x :: x in a <==> x in multiset(a);
    assert forall x :: x in b <==> x in multiset(b);
  }

  lemma CancelOne<T>(m: multiset<T>, n: multiset<T>, x: T)
    ensures m + multiset{x} <= n + multiset{x} ==> m <= n
    ensures m + multiset{x} == n + multiset{x} ==> m == n
  {
    if m + multiset{x} <= n + multiset{x} {
      forall o
        ensures m[o] <= n[o]
      {
        assert (m + multiset{x})[o] <= (n + multiset{x})[o];
      }
    }
    if m + multiset{x} == n + multiset{x} {
      assert m == (m + multiset{x}) - multiset{x};
      assert n == (n + multiset{x}) - multiset{x};
    }
  }

  /** Pigeonhole: a sequence longer than the set it draws from repeats a value. */
  lemma Repeats<T>(s: seq<T>, u: set<T>) returns (i: int, j: int)
    requires forall x :: x in s ==> x in u
    requires |s| > |u|
    ensures 0 <= i < j < |s| && s[i] == s[j]
  {
    if Distinct(s) {
      DistinctSize(s);
      SubsetSize(SetOf(s), u);
      assert false;
    }
    i, j :| 0 <= i < j < |s| && s[i] == s[j];
  }

  lemma {:induction false} SubsetSize<T>(a: set<T>, b: set<T>)
    requires a <= b
    ensures |a| <= |b|
  {
    if a != {} {
      var x :| x in a;
      SubsetSize(a - {x}, b - {x});
    }
  }

  /** Lists a set in an arbitrary order, as iterating over a Python set does. */
  method Listing<T(==)>(s: set<T>) returns (l: seq<T>)
    ensures Distinct(l) && SetOf(l) == s
  {
    l := [];
    var todo := s;
    while todo != {}
      invariant Distinct(l) && todo <= s
      invariant forall y :: y in l <==> y in s && y !in todo
    {
      var x :| x in todo;
      todo := todo - {x};
      l := l + [x];
    }
  }
}

// The stable sorts of the source, as insertion sort, and the byte order of strings.
module Sorting {

  // `less` never ranks c strictly before a when it ranks neither b before a nor c before b.
  ghost predicate WeakOrder<T(!new)>(less: (T, T) -> bool) {
    && (forall a, b :: less(a, b) ==> !less(b, a))
    && (forall a, b, c :: !less(b, a) && !less(c, b) ==> !less(c, a))
  }

  ghost predicate Ascending<T>(s: seq<T>, less: (T, T) -> bool) {
    forall i, j :: 0 <= i < j < |s| ==> !less(s[j], s[i])
  }

  // Puts x behind every element it does not rank strictly before.
  function Insert<T>(x: T, s: seq<T>, less: (T, T) -> bool): seq<T> {
    if s == [] then [x]
    else if less(x, s[|s| - 1]) then Insert(x, s[..|s| - 1], less) + [s[|s| - 1]]
    else s + [x]
  }

  function Sort<T>(s: seq<T>, less: (T, T) -> bool): seq<T> {
    if s == [] then [] else Insert(s[|s| - 1], Sort(s[..|s| - 1], less), less)
  }

  lemma {:induction false} InsertPermutes<T>(x: T, s: seq<T>, less: (T, T) -> bool)
    ensures multiset(Insert(x, s, less)) == multiset(s) + multiset{x}
  {
    if s != [] {
      assert s == s[..|s| - 1] + [s[|s| - 1]];
      InsertPermutes(x, s[..|s| - 1], less);
    }
  }

  lemma SnocMultiset<T>(s: seq<T>)
    requires s != []
    ensures multiset(s) == multiset(s[..|s| - 1]) + multiset{s[|s| - 1]}
  {
    assert s == s[..|s| - 1] + [s[|s| - 1]];
  }

  lemma {:induction false} SortPermutes<T>(s: seq<T>, less: (T, T) -> bool)
    ensures multiset(Sort(s, less)) == multiset(s)
  {
    if s != [] {
      var front, last := s[..|s| - 1], s[|s| - 1];
      SortPermutes(front, less);
      InsertPermutes(last, Sort(front, less), less);
      SnocMultiset(s);
    }
  }

  lemma {:induction false} InsertAscends<T(!new)>(x: T, s: seq<T>, less: (T, T) -> bool)
    requires WeakOrder(less) && Ascending(s, less)
    ensures Ascending(Insert(x, s, less), less)
  {
    if s != [] {
      var last := s[|s| - 1];
      if less(x, last) {
        var front := s[..|s| - 1];
        InsertAscends(x, front, less);
        var r := Insert(x, front, less);
        InsertPermutes(x, front, less);
        forall i | 0 <= i < |r| ensures !less(last, r[i]) {
          assert r[i] in multiset(r);
          if r[i] != x {
            assert r[i] in multiset(front);
          }
        }
      } else {
        forall i | 0 <= i < |s| ensures !less(x, s[i]) {}
      }
    }
  }

  lemma {:induction false} SortAscends<T(!new)>(s: seq<T>, less: (T, T) -> bool)
    requires WeakOrder(less)
    ensures Ascending(Sort(s, less), less)
  {
    if s != [] {
      SortAscends(s[..|s| - 1], less);
      InsertAscends(s[|s| - 1], Sort(s[..|s| - 1], less), less);
    }
  }

  lemma {:induction false} DistinctCount<T>(s: seq<T>, x: T)
    requires forall i, j :: 0 <= i < j < |s| ==> s[i] != s[j]
    ensures multiset(s)[x] <= 1
  {
    if s != [] {
      var front := s[..|s| - 1];
      assert s == front + [s[|s| - 1]];
      DistinctCount(front, x);
      if x == s[|s| - 1] {
        assert x !in front;
        assert x !in multiset(front);
      }
    }
  }

  lemma RepeatedCount<T>(s: seq<T>, i: nat, j: nat)
    requires i < j < |s| && s[i] == s[j]
    ensures multiset(s)[s[i]] >= 2
  {
    assert s == s[..j] + [s[j]] + s[j + 1..];
    assert s[..j][i] == s[i];
    assert s[i] in multiset(s[..j]);
  }

  lemma PermutationKeepsDistinct<T>(a: seq<T>, b: seq<T>)
    requires forall i, j :: 0 <= i < j < |a| ==> a[i] != a[j]
    requires multiset(a) == multiset(b)
    ensures forall i, j :: 0 <= i < j < |b| ==> b[i] != b[j]
  {
    forall i, j | 0 <= i < j < |b| ensures b[i] != b[j] {
      DistinctCount(a, b[i]);
      if b[i] == b[j] {
        RepeatedCount(b, i, j);
      }
    }
  }

  // Go's < on strings.
  predicate Before(a: string, b: string) {
    b != "" && (a == "" || a[0] < b[0] || (a[0] == b[0] && Before(a[1..], b[1..])))
  }

  lemma {:induction false} BeforeAsymmetric(a: string, b: string)
    ensures Before(a, b) ==> !Before(b, a)
  {
    if a != "" && b != "" {
      BeforeAsymmetric(a[1..], b[1..]);
    }
  }

  lemma {:induction false} BeforeNegTransitive(a: string, b: string, c: string)
    ensures !Before(b, a) && !Before(c, b) ==> !Before(c, a)
  {
    if a != "" && b != "" && c != "" {
      BeforeNegTransitive(a[1..], b[1..], c[1..]);
    }
  }

  lemma {:induction false} BeforeTotal(a: string, b: string)
    requires !Before(a, b) && !Before(b, a)
    ensures a == b
  {
    if a != "" && b != "" {
      BeforeTotal(a[1..], b[1..]);
      assert a == [a[0]] + a[1..] && b == [b[0]] + b[1..];
    }
  }
}

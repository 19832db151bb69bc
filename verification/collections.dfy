/**
 Generic facts about sequences that enumerate a set: the shape in which the
 checker walks a Python `set` whose iteration order is unspecified.
 */
module Collections {

  /** No element occurs twice. */
  predicate Distinct<T(==)>(xs: seq<T>) {
    forall i, j :: 0 <= i < j < |xs| ==> xs[i] != xs[j]
  }

  /** The tail of a duplicate-free sequence is duplicate-free and lacks the head. */
  lemma DistinctTail<T>(xs: seq<T>)
    requires Distinct(xs) && |xs| > 0
    ensures Distinct(xs[1..])
    ensures xs[0] !in xs[1..]
  {
    forall k | 0 <= k < |xs| - 1 ensures xs[1..][k] != xs[0] {
      assert xs[1..][k] == xs[k + 1];
    }
  }

  /** `xs` lists every element of `s` exactly once, in some order. */
  ghost predicate Enumerates<T(!new)>(xs: seq<T>, s: set<T>) {
    Distinct(xs) && (forall x :: x in xs <==> x in s)
  }

  /** An enumeration of a set holds each element of the set once and nothing else. */
  lemma {:induction false} EnumerationMultiset<T(!new)>(xs: seq<T>, s: set<T>)
    requires Enumerates(xs, s)
    ensures multiset(xs) == multiset(s)
    ensures |xs| == |s|
    decreases |xs|
  {
    if |xs| == 0 {
      assert s == {};
    } else {
      var x := xs[0];
      var rest := xs[1..];
      assert xs == [x] + rest;
      assert x !in rest by {
        forall k | 0 <= k < |rest| ensures rest[k] != x {
          assert rest[k] == xs[k + 1];
        }
      }
      assert Distinct(rest) by {
        forall i, j | 0 <= i < j < |rest| ensures rest[i] != rest[j] {
          assert rest[i] == xs[i + 1] && rest[j] == xs[j + 1];
        }
      }
      assert forall y :: y in rest <==> y in s - {x} by {
        forall y ensures y in rest <==> y in s - {x} {
          if y in rest {
            assert y in xs;
          }
          if y in s - {x} {
            assert y in xs;
            var k :| 0 <= k < |xs| && xs[k] == y;
            assert k != 0;
            assert rest[k - 1] == y;
          }
        }
      }
      EnumerationMultiset(rest, s - {x});
      assert s == {x} + (s - {x});
      assert multiset(s) == multiset{x} + multiset(s - {x});
    }
  }

  /**
   Two duplicate-free sequences with the same elements are permutations of each
   other.
   */
  lemma SameElementsPermutation<T(!new)>(a: seq<T>, b: seq<T>)
    requires Distinct(a) && Distinct(b)
    requires forall x :: x in a <==> x in b
    ensures multiset(a) == multiset(b)
  {
    var s := set x | x in a;
    EnumerationMultiset(a, s);
    EnumerationMultiset(b, s);
  }

  /**
   Walks a set in an order the caller does not choose, as Python does when it
   iterates a `set`: any duplicate-free enumeration may come back.
   */
  method EnumerateSet<T(==,!new)>(s: set<T>) returns (xs: seq<T>)
    ensures Enumerates(xs, s)
    ensures |xs| == |s|
  {
    xs := [];
    var rest := s;
    while rest != {}
      invariant rest <= s
      invariant Distinct(xs)
      invariant forall x :: x in xs <==> x in s && x !in rest
      decreases rest
    {
      var x :| x in rest;
      xs := xs + [x];
      rest := rest - {x};
    }
    EnumerationMultiset(xs, s);
  }

  /** Removing the element at `k` removes one occurrence of it. */
  lemma RemoveAtMultiset<T>(xs: seq<T>, k: nat)
    requires k < |xs|
    ensures multiset(xs[..k] + xs[k + 1..]) == multiset(xs) - multiset{xs[k]}
  {
    assert xs == xs[..k] + [xs[k]] + xs[k + 1..];
  }

  /**
   Dropping the first element of `a` and a matching element of its
   permutation `b` leaves two permutations.
   */
  lemma PermutationRemove<T>(a: seq<T>, b: seq<T>, k: nat)
    requires multiset(a) == multiset(b)
    requires 0 < |a| && k < |b| && b[k] == a[0]
    ensures multiset(a[1..]) == multiset(b[..k] + b[k + 1..])
  {
    RemoveAtMultiset(b, k);
    RemoveAtMultiset(a, 0);
    assert a[..0] + a[1..] == a[1..];
  }

  /** A sequence with no elements at all is empty. */
  lemma NothingInEmpty<T>(xs: seq<T>)
    requires forall x :: x !in xs
    ensures xs == []
  {
    forall x ensures multiset(xs)[x] == 0 {
      assert x !in xs;
    }
    assert multiset(xs) == multiset{};
  }
}

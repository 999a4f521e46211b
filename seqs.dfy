/** Sequence helpers shared by the card model and the game model. */
module Seqs {

  /** No element occurs at two positions. */
  predicate NoDuplicates<T(==)>(xs: seq<T>) {
    forall i, j :: 0 <= i < j < |xs| ==> xs[i] != xs[j]
  }

  /** Every element occurs at most once in the multiset. */
  ghost predicate Distinct<T(!new)>(m: multiset<T>) {
    forall x :: m[x] <= 1
  }

  lemma {:induction false} NoDuplicatesDistinct<T(!new)>(xs: seq<T>)
    requires NoDuplicates(xs)
    ensures Distinct(multiset(xs))
  {
    if xs != [] {
      NoDuplicatesDistinct(xs[1..]);
      assert xs == [xs[0]] + xs[1..];
      assert xs[0] !in xs[1..] by {
        forall k | 0 <= k < |xs[1..]| ensures xs[1..][k] != xs[0] {
          assert xs[1..][k] == xs[k + 1];
        }
      }
    }
  }

  /** `xs.filter(c => c !== x)`: every occurrence of `x` dropped, the rest kept in order. */
  function Without<T(==)>(xs: seq<T>, x: T): (r: seq<T>)
    ensures |r| <= |xs|
  {
    if xs == [] then []
    else (if xs[0] == x then [] else [xs[0]]) + Without(xs[1..], x)
  }

  /** The filter drops `x` and keeps every other element of `xs`, and nothing else. */
  lemma {:induction false} WithoutFacts<T>(xs: seq<T>, x: T)
    ensures x !in Without(xs, x)
    ensures forall y :: y in Without(xs, x) ==> y in xs && y != x
    ensures forall y :: y in xs && y != x ==> y in Without(xs, x)
  {
    if xs != [] {
      WithoutFacts(xs[1..], x);
      assert xs == [xs[0]] + xs[1..];
    }
  }

  lemma {:induction false} WithoutMultiset<T>(xs: seq<T>, x: T)
    ensures multiset(Without(xs, x)) == multiset(xs)[x := 0]
  {
    if xs != [] {
      var tail := xs[1..];
      WithoutMultiset(tail, x);
      assert xs == [xs[0]] + tail;
      var m := multiset(tail);
      if xs[0] == x {
        assert Without(xs, x) == Without(tail, x);
        assert multiset(xs) == m[x := m[x] + 1];
      } else {
        assert Without(xs, x) == [xs[0]] + Without(tail, x);
        assert multiset(xs) == multiset{xs[0]} + m;
      }
    }
  }

  /** `xs` backwards: the order in which repeated `pop` hands its elements out. */
  function Reversed<T>(xs: seq<T>): (r: seq<T>)
    ensures |r| == |xs|
  {
    if xs == [] then [] else Reversed(xs[1..]) + [xs[0]]
  }

  lemma {:induction false} ReversedMultiset<T>(xs: seq<T>)
    ensures multiset(Reversed(xs)) == multiset(xs)
  {
    if xs != [] {
      ReversedMultiset(xs[1..]);
      assert xs == [xs[0]] + xs[1..];
    }
  }

  /** The array swap `[a[i], a[j]] = [a[j], a[i]]` on a sequence. */
  function Swap<T>(xs: seq<T>, i: nat, j: nat): (r: seq<T>)
    requires i < |xs| && j < |xs|
  {
    xs[i := xs[j]][j := xs[i]]
  }

  lemma SwapPermutes<T>(xs: seq<T>, i: nat, j: nat)
    requires i < |xs| && j < |xs|
    ensures |Swap(xs, i, j)| == |xs|
    ensures multiset(Swap(xs, i, j)) == multiset(xs)
    ensures Swap(xs, i, j)[i] == xs[j] && Swap(xs, i, j)[j] == xs[i]
  {
  }
}

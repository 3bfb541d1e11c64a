/**
 * Sequence facts behind `[...new Set(xs)]`: a JavaScript `Set` keeps the
 * first insertion of each value, in insertion order, and spreading it back
 * into an array lists those values in that order.
 */
module Sequences {

  predicate NoDuplicates<T(==)>(s: seq<T>) {
    forall i, j :: 0 <= i < j < |s| ==> s[i] != s[j]
  }

  /** Position of the first occurrence of `x` in `xs`, or `|xs|` when there is none. */
  function IndexOf<T(==)>(xs: seq<T>, x: T): (r: nat)
    ensures r <= |xs|
    ensures r < |xs| <==> x in xs
    ensures r < |xs| ==> xs[r] == x
    ensures forall k :: 0 <= k < r ==> xs[k] != x
  {
    if xs == [] then 0
    else if xs[0] == x then 0
    else 1 + IndexOf(xs[1..], x)
  }

  /** Appending an element leaves first occurrences in the prefix where they were. */
  lemma {:induction false} IndexOfAppend<T>(xs: seq<T>, y: T, x: T)
    ensures IndexOf(xs + [y], x) == if x in xs then IndexOf(xs, x) else if x == y then |xs| else |xs| + 1
  {
    var i := IndexOf(xs + [y], x);
    if x in xs {
      var j := IndexOf(xs, x);
      assert (xs + [y])[j] == x;
      assert i <= j;
      assert xs[i] == (xs + [y])[i];
    } else if x == y {
      assert (xs + [y])[|xs|] == x;
      assert forall k :: 0 <= k < |xs| ==> (xs + [y])[k] == xs[k];
    } else {
      assert forall k :: 0 <= k < |xs| ==> (xs + [y])[k] == xs[k];
      assert x !in xs + [y];
    }
  }

  /** `s` lists its elements in increasing order of their first occurrence in `xs`. */
  predicate InFirstOccurrenceOrder<T(==)>(s: seq<T>, xs: seq<T>) {
    forall i, j :: 0 <= i < j < |s| ==> IndexOf(xs, s[i]) < IndexOf(xs, s[j])
  }

  /**
   * The distinct elements of `xs`, each once, in the order in which each first
   * occurs: what adding the elements of `xs` to a `Set` one by one and then
   * spreading the set yields.
   */
  function Distinct<T(==, !new)>(xs: seq<T>): (r: seq<T>)
    ensures NoDuplicates(r)
    ensures forall x :: x in r <==> x in xs
    ensures InFirstOccurrenceOrder(r, xs)
    ensures |r| <= |xs|
  {
    if xs == [] then []
    else
      var init, last := xs[..|xs| - 1], xs[|xs| - 1];
      assert xs == init + [last];
      var d := Distinct(init);
      forall x | x in d ensures IndexOf(xs, x) == IndexOf(init, x) {
        IndexOfAppend(init, last, x);
      }
      if last in d then d
      else
        IndexOfAppend(init, last, last);
        d + [last]
  }

  /**
   * The contract of `Distinct` determines its result: any duplicate-free
   * sequence with the same elements as `xs`, listed in first-occurrence order,
   * is `Distinct(xs)`.
   */
  lemma DistinctUnique<T(!new)>(s: seq<T>, xs: seq<T>)
    requires NoDuplicates(s)
    requires forall x :: x in s <==> x in xs
    requires InFirstOccurrenceOrder(s, xs)
    ensures s == Distinct(xs)
  {
    SameOrderedEqual(s, Distinct(xs), xs);
  }

  /** Two sequences ordered strictly by first occurrence in `xs`, with the same elements, are equal. */
  lemma {:induction false} SameOrderedEqual<T(!new)>(a: seq<T>, b: seq<T>, xs: seq<T>)
    requires forall x :: x in a <==> x in b
    requires forall x :: x in a ==> x in xs
    requires InFirstOccurrenceOrder(a, xs) && InFirstOccurrenceOrder(b, xs)
    ensures a == b
    decreases |a|
  {
    if a != [] {
      assert b != [] by { assert a[0] in b; }
      // The head of each is the element that occurs first in xs.
      assert a[0] == b[0] by {
        HeadOccursFirst(a, xs, b[0]);
        HeadOccursFirst(b, xs, a[0]);
        assert xs[IndexOf(xs, a[0])] == a[0] && xs[IndexOf(xs, b[0])] == b[0];
      }
      forall x ensures x in a[1..] <==> x in b[1..] {
        TailMembers(a, xs, x);
        TailMembers(b, xs, x);
      }
      SameOrderedEqual(a[1..], b[1..], xs);
      assert a == [a[0]] + a[1..] && b == [b[0]] + b[1..];
    } else {
      if b != [] {
        // b[0] would be in a, which is empty.
        HeadIsMember(b);
        assert false;
      }
    }
  }

  lemma HeadIsMember<T>(s: seq<T>)
    requires s != []
    ensures s[0] in s
  {
  }

  /** The head of a sequence in first-occurrence order occurs in `xs` no later than any of its elements. */
  lemma HeadOccursFirst<T>(s: seq<T>, xs: seq<T>, x: T)
    requires InFirstOccurrenceOrder(s, xs) && x in s
    ensures IndexOf(xs, s[0]) <= IndexOf(xs, x)
  {
    var i := IndexOf(s, x);
    assert i == 0 || IndexOf(xs, s[0]) < IndexOf(xs, s[i]);
  }

  /** In a sequence in first-occurrence order, the tail holds exactly the elements other than the head. */
  lemma TailMembers<T>(s: seq<T>, xs: seq<T>, x: T)
    requires InFirstOccurrenceOrder(s, xs) && s != []
    ensures x in s[1..] <==> x in s && x != s[0]
  {
    if x in s[1..] {
      var i := IndexOf(s[1..], x);
      assert s[1 + i] == x;
      assert IndexOf(xs, s[0]) < IndexOf(xs, s[1 + i]);
    }
    if x in s && x != s[0] {
      var i := IndexOf(s, x);
      assert s[1..][i - 1] == x;
    }
  }

  /** `a` is a subsequence of `b`: it can be obtained by deleting elements of `b`, keeping the order of the rest. */
  predicate IsSubsequence<T(==)>(a: seq<T>, b: seq<T>) {
    a == [] || (b != [] && ((a[0] == b[0] && IsSubsequence(a[1..], b[1..])) || IsSubsequence(a, b[1..])))
  }
}

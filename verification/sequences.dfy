/**
  Small facts about sequences of values compared by equality: pairwise
  distinctness, the first position of a value, and removal of that first
  occurrence (the behaviour of Python's `list.remove`).
 */
module Sequences {

  /** No value occurs twice. */
  predicate Distinct<T(==)>(xs: seq<T>) {
    forall i, j :: 0 <= i < j < |xs| ==> xs[i] != xs[j]
  }

  /** Every element of `xs` satisfies `p`. */
  predicate All<T>(xs: seq<T>, p: T -> bool) {
    forall i :: 0 <= i < |xs| ==> p(xs[i])
  }

  /** The index of the first element equal to `v`. */
  function FirstIndex<T(==)>(xs: seq<T>, v: T): (i: nat)
    requires v in xs
    ensures i < |xs| && xs[i] == v
    ensures forall j :: 0 <= j < i ==> xs[j] != v
  {
    if xs[0] == v then 0
    else
      assert xs == [xs[0]] + xs[1..];
      1 + FirstIndex(xs[1..], v)
  }

  /** `xs` without its first element equal to `v`; `xs` itself when there is none. */
  function RemoveFirst<T(==)>(xs: seq<T>, v: T): (ys: seq<T>)
    ensures v !in xs ==> ys == xs
    ensures v in xs ==> ys == xs[..FirstIndex(xs, v)] + xs[FirstIndex(xs, v) + 1..]
  {
    if |xs| == 0 then []
    else if xs[0] == v then xs[1..]
    else
      assert xs == [xs[0]] + xs[1..];
      [xs[0]] + RemoveFirst(xs[1..], v)
  }

  /** Appending an absent value keeps the values distinct. */
  lemma DistinctAppend<T>(xs: seq<T>, v: T)
    requires Distinct(xs) && v !in xs
    ensures Distinct(xs + [v])
  {
  }

  /** Overwriting one position with an absent value keeps the values distinct. */
  lemma DistinctUpdate<T>(xs: seq<T>, i: nat, v: T)
    requires Distinct(xs) && i < |xs| && v !in xs
    ensures Distinct(xs[i := v])
  {
  }

  /** Removing the first occurrence keeps the values distinct, and in a
      distinct sequence it removes the value altogether. */
  lemma DistinctRemoveFirst<T>(xs: seq<T>, v: T)
    requires Distinct(xs)
    ensures Distinct(RemoveFirst(xs, v))
    ensures v !in RemoveFirst(xs, v)
    ensures forall x :: x in RemoveFirst(xs, v) ==> x in xs
  {
  }

  /** Every element of what `RemoveFirst` leaves came from the input. */
  lemma AllRemoveFirst<T>(xs: seq<T>, v: T, p: T -> bool)
    requires All(xs, p)
    ensures All(RemoveFirst(xs, v), p)
  {
  }
}

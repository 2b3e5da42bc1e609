/** Sequences with the same elements in another order. */
module Permutations {

  // The first element of one order, found and taken out of another.
  lemma TakeFirst<T>(xs: seq<T>, ys: seq<T>) returns (k: nat)
    requires xs != [] && multiset(xs) == multiset(ys)
    ensures k < |ys| && ys[k] == xs[0]
    ensures multiset(xs[1..]) == multiset(ys[..k] + ys[k + 1..])
  {
    assert xs[0] in multiset(ys);
    k :| 0 <= k < |ys| && ys[k] == xs[0];
    var front, back := ys[..k], ys[k + 1..];
    assert ys == front + ([ys[k]] + back);
    assert multiset(ys) == multiset(front) + (multiset{ys[k]} + multiset(back));
    assert xs == [xs[0]] + xs[1..];
    assert multiset(xs) == multiset{xs[0]} + multiset(xs[1..]);
    assert multiset(front + back) == multiset(front) + multiset(back);
    assert multiset(xs[1..]) == multiset(xs) - multiset{xs[0]};
  }

  lemma SameElements<T>(xs: seq<T>, ys: seq<T>)
    requires multiset(xs) == multiset(ys)
    ensures forall x :: x in xs <==> x in ys
  {
    forall x
      ensures x in xs <==> x in ys
    {
      assert x in multiset(xs) <==> x in multiset(ys);
    }
  }

  lemma EmptyPermutation<T>(xs: seq<T>, ys: seq<T>)
    requires xs == [] && multiset(xs) == multiset(ys)
    ensures ys == []
  {
    assert |multiset(xs)| == |xs| && |multiset(ys)| == |ys|;
  }
}

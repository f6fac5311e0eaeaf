/** Sequence helpers: element-wise mapping and its behaviour under permutation. */
module Seqs {

  /** Applies `f` to every element of `xs`, keeping the order. */
  function Map<A, B>(f: A -> B, xs: seq<A>): (ys: seq<B>)
    ensures |ys| == |xs|
    ensures forall i :: 0 <= i < |xs| ==> ys[i] == f(xs[i])
  {
    seq(|xs|, i requires 0 <= i < |xs| => f(xs[i]))
  }

  /** Mapping distributes over concatenation. */
  lemma MapAppend<A, B>(f: A -> B, xs: seq<A>, ys: seq<A>)
    ensures Map(f, xs + ys) == Map(f, xs) + Map(f, ys)
  {
  }

  /** Mapping one more element adds its image once. */
  lemma MapSnoc<A, B>(f: A -> B, xs: seq<A>, x: A)
    ensures multiset(Map(f, xs + [x])) == multiset(Map(f, xs)) + multiset{f(x)}
  {
    assert Map(f, xs + [x]) == Map(f, xs) + [f(x)];
  }

  /** Removing the element at `j` removes one occurrence of it. */
  lemma MultisetRemoveAt<T>(s: seq<T>, j: nat)
    requires j < |s|
    ensures multiset(s) == multiset(s[..j] + s[j + 1..]) + multiset{s[j]}
  {
    assert s == s[..j] + [s[j]] + s[j + 1..];
  }

  /** Mapping commutes with removing the element at `j`. */
  lemma MapRemoveAt<A, B>(f: A -> B, xs: seq<A>, j: nat)
    requires j < |xs|
    ensures multiset(Map(f, xs)) == multiset(Map(f, xs[..j] + xs[j + 1..])) + multiset{f(xs[j])}
  {
    var ys := Map(f, xs);
    assert Map(f, xs[..j] + xs[j + 1..]) == ys[..j] + ys[j + 1..];
    MultisetRemoveAt(ys, j);
  }

  /** The mapped head is one occurrence of the mapped sequence. */
  lemma MapHead<A, B>(f: A -> B, xs: seq<A>)
    requires |xs| > 0
    ensures multiset(Map(f, xs)) == multiset(Map(f, xs[1..])) + multiset{f(xs[0])}
  {
    assert Map(f, xs) == [f(xs[0])] + Map(f, xs[1..]);
  }

  /** Removing one occurrence of the same element from two sequences with
      equal multisets leaves equal multisets. */
  lemma RemoveBoth<T>(xs: seq<T>, ys: seq<T>, j: nat)
    requires multiset(xs) == multiset(ys) && |xs| > 0 && j < |ys| && ys[j] == xs[0]
    ensures multiset(xs[1..]) == multiset(ys[..j] + ys[j + 1..])
  {
    var x := multiset{xs[0]};
    var rest := ys[..j] + ys[j + 1..];
    MultisetRemoveAt(ys, j);
    assert xs == [xs[0]] + xs[1..];
    assert multiset(xs) == x + multiset(xs[1..]);
    assert multiset(xs[1..]) == multiset(xs) - x;
    assert multiset(rest) == multiset(ys) - x;
  }

  /** Two sequences holding the same elements with the same multiplicities
      still do so after mapping: mapping commutes with permutation. */
  lemma {:induction false} MapPermutation<A, B>(f: A -> B, xs: seq<A>, ys: seq<A>)
    requires multiset(xs) == multiset(ys)
    ensures multiset(Map(f, xs)) == multiset(Map(f, ys))
    decreases |xs|
  {
    if |xs| == 0 {
      assert |multiset(ys)| == 0;
      assert ys == [];
    } else {
      assert xs[0] in multiset(ys);
      var j :| 0 <= j < |ys| && ys[j] == xs[0];
      var rest := ys[..j] + ys[j + 1..];
      RemoveBoth(xs, ys, j);
      MapPermutation(f, xs[1..], rest);
      MapHead(f, xs);
      MapRemoveAt(f, ys, j);
      var m := multiset{f(xs[0])};
      assert multiset(Map(f, xs)) == multiset(Map(f, xs[1..])) + m;
      assert multiset(Map(f, ys)) == multiset(Map(f, rest)) + m;
    }
  }
}

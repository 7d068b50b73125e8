/**
 * Reorderings. The annotator shuffles with `sort(() => Math.random() - 0.5)`,
 * which yields SOME permutation of its input and no particular one; the
 * model draws that permutation from a seed: a sequence of numbers standing
 * for whatever the random source produced. Every seed gives a permutation
 * and every permutation comes from some seed, so the seed ranges over
 * exactly the outcomes the sort can have. A drop in the ranking area
 * reorders the live list by a sequence of positions read from the page.
 */
module Shuffle {

  /** No element occurs twice. */
  predicate Distinct<T(==)>(s: seq<T>) {
    forall i, j :: 0 <= i < j < |s| ==> s[i] != s[j]
  }

  /** Appending an element not yet present keeps a sequence distinct. */
  lemma DistinctAppend<T>(s: seq<T>, x: T)
    requires Distinct(s) && x !in s
    ensures Distinct(s + [x])
  {
  }

  /** `xs` with the element at position j taken out. */
  function RemoveAt<T>(xs: seq<T>, j: nat): (r: seq<T>)
    requires j < |xs|
    ensures |r| == |xs| - 1
  {
    xs[..j] + xs[j + 1..]
  }

  /** Taking an element out takes one occurrence of it out of the multiset. */
  lemma RemoveAtMultiset<T>(xs: seq<T>, j: nat)
    requires j < |xs|
    ensures multiset(RemoveAt(xs, j)) + multiset{xs[j]} == multiset(xs)
  {
    assert xs == xs[..j] + [xs[j]] + xs[j + 1..];
  }

  /** Taking an element out of a distinct sequence leaves a distinct
      sequence without that element. */
  lemma RemoveAtDistinct<T>(xs: seq<T>, j: nat)
    requires j < |xs| && Distinct(xs)
    ensures Distinct(RemoveAt(xs, j)) && xs[j] !in RemoveAt(xs, j)
  {
    var r := RemoveAt(xs, j);
    assert forall i :: 0 <= i < |r| ==> r[i] == xs[if i < j then i else i + 1];
  }

  /** The position the next seed number selects among n: that number when
      it is below n, otherwise (and once the seed is used up) the first. */
  function Pick(seed: seq<nat>, n: nat): (j: nat)
    requires n > 0
    ensures j < n
  {
    if seed != [] && seed[0] < n then seed[0] else 0
  }

  /** A permutation of `xs` chosen by `seed`: each step takes out the element
      at the position the next seed number picks. */
  function Shuffled<T>(xs: seq<T>, seed: seq<nat>): (r: seq<T>)
    ensures |r| == |xs|
    decreases |xs|
  {
    if xs == [] then []
    else
      var j := Pick(seed, |xs|);
      [xs[j]] + Shuffled(RemoveAt(xs, j), if seed == [] then [] else seed[1..])
  }

  /** A shuffle is a permutation: every element as often as in `xs`. */
  lemma {:induction false} ShuffledPermutes<T>(xs: seq<T>, seed: seq<nat>)
    ensures multiset(Shuffled(xs, seed)) == multiset(xs)
    decreases |xs|
  {
    if xs != [] {
      var j := Pick(seed, |xs|);
      var s' := if seed == [] then [] else seed[1..];
      ShuffledPermutes(RemoveAt(xs, j), s');
      RemoveAtMultiset(xs, j);
    }
  }

  /** A seed that shuffles `xs` into the given rearrangement `ys`: at each
      step, the position in what is left of `xs` of the next element of `ys`. */
  lemma {:induction false} SeedFor<T>(xs: seq<T>, ys: seq<T>) returns (seed: seq<nat>)
    requires multiset(ys) == multiset(xs)
    ensures Shuffled(xs, seed) == ys
    decreases |xs|
  {
    if xs == [] {
      assert |multiset(ys)| == 0;
      seed := [];
    } else {
      assert |ys| == |xs| by {
        assert |multiset(ys)| == |ys| && |multiset(xs)| == |xs|;
      }
      assert ys[0] in multiset(xs) by {
        assert ys[0] in multiset(ys);
      }
      var j: nat :| j < |xs| && xs[j] == ys[0];
      var rest := RemoveAt(xs, j);
      var tail := ys[1..];
      assert ys == [ys[0]] + tail;
      assert multiset(tail) == multiset(rest) by {
        RemoveAtMultiset(xs, j);
        MultisetCancel(tail, rest, ys[0]);
      }
      var s' := SeedFor(rest, tail);
      seed := [j] + s';
      assert Pick(seed, |xs|) == j && seed[1..] == s';
      assert Shuffled(xs, seed) == [xs[j]] + Shuffled(rest, s');
    }
  }

  /** Every permutation of `xs` is the shuffle of some seed, so the model
      rules out no outcome of the random sort. */
  lemma ShuffledReachesEvery<T>(xs: seq<T>, ys: seq<T>)
    requires multiset(ys) == multiset(xs)
    ensures exists seed :: Shuffled(xs, seed) == ys
  {
    var seed := SeedFor(xs, ys);
  }

  /** Shuffling keeps distinct elements distinct. */
  lemma {:induction false} ShuffledDistinct<T>(xs: seq<T>, seed: seq<nat>)
    ensures Distinct(xs) ==> Distinct(Shuffled(xs, seed))
    decreases |xs|
  {
    if xs != [] && Distinct(xs) {
      var j := Pick(seed, |xs|);
      var rest := RemoveAt(xs, j);
      var s' := if seed == [] then [] else seed[1..];
      RemoveAtDistinct(xs, j);
      ShuffledDistinct(rest, s');
      var tail := Shuffled(rest, s');
      ShuffledPermutes(rest, s');
      assert xs[j] !in multiset(tail);
      assert Shuffled(xs, seed) == [xs[j]] + tail;
    }
  }

  /** The positions 0, 1, ..., n - 1. */
  function Range(n: nat): (r: seq<nat>)
    ensures |r| == n && forall i :: 0 <= i < n ==> r[i] == i
  {
    seq(n, i requires 0 <= i < n => i)
  }

  /** `order` lists each of the positions 0..n-1 exactly once. */
  predicate IsPermutation(order: seq<nat>, n: nat) {
    (forall i :: 0 <= i < |order| ==> order[i] < n) && multiset(order) == multiset(Range(n))
  }

  /** The elements of `xs` at the positions `order` lists, in that order
      (`newOrder.map(i => translations[i])`). */
  function Apply<T>(xs: seq<T>, order: seq<nat>): (r: seq<T>)
    requires forall i :: 0 <= i < |order| ==> order[i] < |xs|
    ensures |r| == |order| && forall i :: 0 <= i < |order| ==> r[i] == xs[order[i]]
  {
    seq(|order|, i requires 0 <= i < |order| => xs[order[i]])
  }

  /** A permutation of n positions has n entries. */
  lemma PermutationLength(order: seq<nat>, n: nat)
    requires IsPermutation(order, n)
    ensures |order| == n
  {
    assert |multiset(order)| == |multiset(Range(n))|;
  }

  /** Adding the same element to two multisets that end up equal means they were equal. */
  lemma MultisetCancel<T>(a: seq<T>, b: seq<T>, x: T)
    requires multiset(a) + multiset{x} == multiset(b) + multiset{x}
    ensures multiset(a) == multiset(b)
  {
    assert forall y :: multiset(a)[y] == multiset(b)[y] by {
      forall y ensures multiset(a)[y] == multiset(b)[y] {
        assert (multiset(a) + multiset{x})[y] == (multiset(b) + multiset{x})[y];
      }
    }
  }

  lemma ApplyConcat<T>(xs: seq<T>, a: seq<nat>, b: seq<nat>)
    requires forall i :: 0 <= i < |a| ==> a[i] < |xs|
    requires forall i :: 0 <= i < |b| ==> b[i] < |xs|
    ensures forall i :: 0 <= i < |a + b| ==> (a + b)[i] < |xs|
    ensures Apply(xs, a + b) == Apply(xs, a) + Apply(xs, b)
  {
    assert forall i :: 0 <= i < |a + b| ==> (a + b)[i] == (if i < |a| then a[i] else b[i - |a|]);
  }

  /** Picking by a non-empty list: the first pick, then the rest. */
  lemma ApplyCons<T>(xs: seq<T>, o: seq<nat>)
    requires o != [] && forall i :: 0 <= i < |o| ==> o[i] < |xs|
    ensures Apply(xs, o) == [xs[o[0]]] + Apply(xs, o[1..])
  {
    var l, r := Apply(xs, o), [xs[o[0]]] + Apply(xs, o[1..]);
    forall i | 0 <= i < |l| ensures l[i] == r[i] {
      if i > 0 { assert o[i] == o[1..][i - 1]; }
    }
  }

  /** Dropping position p from the list drops one pick of xs[o[p]]. */
  lemma ApplyRemoveAt<T>(xs: seq<T>, o: seq<nat>, p: nat)
    requires p < |o| && forall i :: 0 <= i < |o| ==> o[i] < |xs|
    ensures forall i :: 0 <= i < |RemoveAt(o, p)| ==> RemoveAt(o, p)[i] < |xs|
    ensures multiset(Apply(xs, o)) == multiset(Apply(xs, RemoveAt(o, p))) + multiset{xs[o[p]]}
  {
    var before, after := o[..p], o[p + 1..];
    assert o == before + ([o[p]] + after);
    ApplyConcat(xs, [o[p]], after);
    ApplyConcat(xs, before, [o[p]] + after);
    ApplyConcat(xs, before, after);
    assert Apply(xs, [o[p]]) == [xs[o[p]]];
    assert RemoveAt(o, p) == before + after;
  }

  /** Two position lists with the same positions pick the same elements. */
  lemma {:induction false} ApplySameMultiset<T>(xs: seq<T>, o1: seq<nat>, o2: seq<nat>)
    requires forall i :: 0 <= i < |o1| ==> o1[i] < |xs|
    requires forall i :: 0 <= i < |o2| ==> o2[i] < |xs|
    requires multiset(o1) == multiset(o2)
    ensures multiset(Apply(xs, o1)) == multiset(Apply(xs, o2))
    decreases |o1|
  {
    if o1 == [] {
      assert |multiset(o2)| == 0;
      assert o2 == [];
    } else {
      var x := o1[0];
      assert x in multiset(o2) by {
        assert x in multiset(o1);
      }
      var p :| 0 <= p < |o2| && o2[p] == x;
      var o1', o2' := o1[1..], RemoveAt(o2, p);
      assert multiset(o1') == multiset(o2') by {
        RemoveAtMultiset(o2, p);
        assert o1 == [x] + o1';
        assert multiset(o1) == multiset(o1') + multiset{x};
        MultisetCancel(o1', o2', x);
      }
      ApplyRemoveAt(xs, o2, p);
      ApplySameMultiset(xs, o1', o2');
      ApplyCons(xs, o1);
    }
  }

  /** Reordering by a permutation of positions keeps the multiset of elements. */
  lemma ApplyPermutation<T>(xs: seq<T>, order: seq<nat>)
    requires IsPermutation(order, |xs|)
    ensures multiset(Apply(xs, order)) == multiset(xs)
  {
    ApplySameMultiset(xs, order, Range(|xs|));
    assert Apply(xs, Range(|xs|)) == xs;
  }
}

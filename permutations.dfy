/** The games shuffle with `array.sort(() => Math.random() - 0.5)`. Whatever
    order such a sort produces is some rearrangement of its input, so the model
    takes that rearrangement as a parameter: a sequence of source indices that
    is a permutation of 0..n-1. Nothing is claimed about how likely each order is. */
module Permutations {

  function Range(n: nat): (r: seq<nat>)
    ensures |r| == n
    ensures forall i :: 0 <= i < n ==> r[i] == i
  {
    seq(n, i requires 0 <= i < n => i)
  }

  /** `p` lists every index below `n` exactly once. */
  ghost predicate IsPermutation(p: seq<nat>, n: nat)
  {
    multiset(p) == multiset(Range(n))
  }

  /** Indices all below `n`. */
  predicate IndicesBelow(p: seq<nat>, n: nat)
  {
    forall i :: 0 <= i < |p| ==> p[i] < n
  }

  /** The sequence whose i-th element is `s[p[i]]`. */
  function Permute<T>(s: seq<T>, p: seq<nat>): (r: seq<T>)
    requires IndicesBelow(p, |s|)
    ensures |r| == |p|
  {
    if p == [] then [] else [s[p[0]]] + Permute(s, p[1..])
  }

  lemma {:induction false} PermuteAt<T>(s: seq<T>, p: seq<nat>, i: nat)
    requires IndicesBelow(p, |s|) && i < |p|
    ensures Permute(s, p)[i] == s[p[i]]
  {
    if i > 0 { PermuteAt(s, p[1..], i - 1); }
  }

  lemma PermutationBounds(p: seq<nat>, n: nat)
    requires IsPermutation(p, n)
    ensures |p| == n
    ensures IndicesBelow(p, n)
  {
    assert |multiset(p)| == |p| && |multiset(Range(n))| == n;
    forall i | 0 <= i < |p| ensures p[i] < n {
      assert p[i] in multiset(p);
      assert p[i] in Range(n);
    }
  }

  lemma RemoveAt<T>(b: seq<T>, k: nat)
    requires k < |b|
    ensures multiset(b[..k] + b[k + 1..]) == multiset(b) - multiset{b[k]}
  {
    assert b == b[..k] + [b[k]] + b[k + 1..];
  }

  lemma SplitAround<T>(b: seq<T>, k: nat)
    requires k < |b|
    ensures b == b[..k] + [b[k]] + b[k + 1..]
  {
  }

  lemma {:induction false} PermuteConcat<T>(s: seq<T>, u: seq<nat>, v: seq<nat>)
    requires IndicesBelow(u, |s|) && IndicesBelow(v, |s|)
    ensures IndicesBelow(u + v, |s|)
    ensures Permute(s, u + v) == Permute(s, u) + Permute(s, v)
  {
    assert IndicesBelow(u + v, |s|);
    if u == [] {
      assert u + v == v;
    } else {
      assert (u + v)[0] == u[0] && (u + v)[1..] == u[1..] + v;
      PermuteConcat(s, u[1..], v);
      calc {
        Permute(s, u + v);
        [s[u[0]]] + Permute(s, u[1..] + v);
        [s[u[0]]] + (Permute(s, u[1..]) + Permute(s, v));
        ([s[u[0]]] + Permute(s, u[1..])) + Permute(s, v);
      }
    }
  }

  lemma SameMultisetBounds(a: seq<nat>, b: seq<nat>, n: nat)
    requires multiset(a) == multiset(b)
    requires IndicesBelow(a, n)
    ensures IndicesBelow(b, n)
  {
    forall i | 0 <= i < |b| ensures b[i] < n {
      assert b[i] in multiset(a);
    }
  }

  /** Where the first element of `a` sits in a rearrangement `b` of it, and
      what is left on both sides once it is taken out. */
  lemma Locate(a: seq<nat>, b: seq<nat>) returns (k: nat)
    requires a != [] && multiset(a) == multiset(b)
    ensures k < |b| && b[k] == a[0]
    ensures multiset(a[1..]) == multiset(b[..k] + b[k + 1..])
  {
    var x := a[0];
    assert x in multiset(a);
    assert x in b;
    k :| 0 <= k < |b| && b[k] == x;
    RemoveAt(b, k);
    assert a == [x] + a[1..];
    assert multiset(a) == multiset{x} + multiset(a[1..]);
  }

  lemma {:induction false} PermuteRespectsMultiset<T>(s: seq<T>, a: seq<nat>, b: seq<nat>)
    requires multiset(a) == multiset(b)
    requires IndicesBelow(a, |s|)
    ensures IndicesBelow(b, |s|)
    ensures multiset(Permute(s, a)) == multiset(Permute(s, b))
    decreases |a|
  {
    SameMultisetBounds(a, b, |s|);
    if a != [] {
      var k := Locate(a, b);
      var x, rest, u, v := a[0], a[1..], b[..k], b[k + 1..];
      assert IndicesBelow(rest, |s|) && IndicesBelow(u, |s|) && IndicesBelow(v, |s|);
      PermuteRespectsMultiset(s, rest, u + v);
      Rearrange(s, x, rest, u, v);
      SplitAround(b, k);
      assert a == [x] + rest;
    }
  }

  lemma MultisetShuffle<T>(a: seq<T>, r: seq<T>, u: seq<T>, v: seq<T>)
    requires multiset(r) == multiset(u + v)
    ensures multiset(a + r) == multiset(u + a + v)
  {
    calc {
      multiset(a + r);
      multiset(a) + multiset(r);
      multiset(a) + (multiset(u) + multiset(v));
      (multiset(u) + multiset(a)) + multiset(v);
      multiset(u + a + v);
    }
  }

  /** Moving one index from the front into the middle keeps the multiset. */
  lemma Rearrange<T>(s: seq<T>, x: nat, rest: seq<nat>, u: seq<nat>, v: seq<nat>)
    requires x < |s| && IndicesBelow(rest, |s|) && IndicesBelow(u, |s|) && IndicesBelow(v, |s|)
    requires IndicesBelow(u + v, |s|)
    requires multiset(Permute(s, rest)) == multiset(Permute(s, u + v))
    ensures IndicesBelow([x] + rest, |s|) && IndicesBelow(u + [x] + v, |s|)
    ensures multiset(Permute(s, [x] + rest)) == multiset(Permute(s, u + [x] + v))
  {
    assert IndicesBelow([x], |s|);
    PermuteConcat(s, [x], rest);
    PermuteConcat(s, u, v);
    PermuteConcat(s, u, [x]);
    PermuteConcat(s, u + [x], v);
    var px, pr, pu, pv := Permute(s, [x]), Permute(s, rest), Permute(s, u), Permute(s, v);
    MultisetShuffle(px, pr, pu, pv);
  }

  /** Rearranging by a permutation keeps every element and its multiplicity. */
  lemma PermutePreservesMultiset<T>(s: seq<T>, p: seq<nat>)
    requires IsPermutation(p, |s|)
    ensures IndicesBelow(p, |s|)
    ensures multiset(Permute(s, p)) == multiset(s)
  {
    PermutationBounds(p, |s|);
    var id := Range(|s|);
    assert IndicesBelow(id, |s|);
    PermuteRespectsMultiset(s, id, p);
    PermuteIdentity(s);
  }

  lemma PermuteIdentity<T>(s: seq<T>)
    ensures IndicesBelow(Range(|s|), |s|)
    ensures Permute(s, Range(|s|)) == s
  {
    var r := Permute(s, Range(|s|));
    forall i | 0 <= i < |s| ensures r[i] == s[i] {
      PermuteAt(s, Range(|s|), i);
    }
  }

  /** An element that two different positions hold occurs at least twice. */
  lemma TwoPositions<T>(s: seq<T>, i: nat, j: nat)
    requires i < j < |s| && s[i] == s[j]
    ensures multiset(s)[s[i]] >= 2
  {
    assert s == s[..j] + s[j..];
    assert s[i] in s[..j] && s[j] in s[j..];
  }

  lemma {:induction false} RangeCount(n: nat, x: nat)
    ensures multiset(Range(n))[x] == (if x < n then 1 else 0)
  {
    if n > 0 {
      assert Range(n) == Range(n - 1) + [n - 1];
      RangeCount(n - 1, x);
    }
  }

  /** A permutation never repeats an index. */
  lemma PermutationDistinct(p: seq<nat>, n: nat, i: nat, j: nat)
    requires IsPermutation(p, n) && i < j < |p|
    ensures p[i] != p[j]
  {
    if p[i] == p[j] {
      TwoPositions(p, i, j);
      RangeCount(n, p[i]);
    }
  }

  /** Two positions holding the same index are the same position. */
  lemma PermutationInjective(p: seq<nat>, n: nat, i: nat, j: nat)
    requires IsPermutation(p, n) && i < |p| && j < |p| && p[i] == p[j]
    ensures i == j
  {
    if i < j { PermutationDistinct(p, n, i, j); }
    else if j < i { PermutationDistinct(p, n, j, i); }
  }

  /** Every index below `n` occurs somewhere in a permutation of 0..n-1. */
  lemma PermutationCovers(p: seq<nat>, n: nat, x: nat) returns (j: nat)
    requires IsPermutation(p, n) && x < n
    ensures j < |p| && p[j] == x
  {
    RangeCount(n, x);
    assert x in multiset(p);
    j :| 0 <= j < |p| && p[j] == x;
  }
}

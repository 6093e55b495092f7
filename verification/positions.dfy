/** Rearrangements given by position lists: the positions `0 .. n - 1`, the
    elements a position list picks, and the fact that picking by a permuted
    position list permutes the elements. */
module Positions {
  /** The positions `0 .. n - 1`. */
  function Range(n: nat): (r: seq<nat>)
    ensures |r| == n && forall k :: 0 <= k < n ==> r[k] == k
  {
    seq(n, k requires 0 <= k => k)
  }

  /** The elements of `xs` at the positions `o`, in that order. */
  function Pick<T>(xs: seq<T>, o: seq<nat>): (r: seq<T>)
    requires forall k :: 0 <= k < |o| ==> o[k] < |xs|
    ensures |r| == |o| && forall k :: 0 <= k < |o| ==> r[k] == xs[o[k]]
  {
    seq(|o|, k requires 0 <= k < |o| => xs[o[k]])
  }

  /** A rearrangement of `0 .. n - 1` has `n` entries, all below `n`. */
  lemma RearrangementBounds(o: seq<nat>, n: nat)
    requires multiset(o) == multiset(Range(n))
    ensures |o| == n && forall k :: 0 <= k < |o| ==> o[k] < n
  {
    assert |multiset(o)| == |multiset(Range(n))|;
    forall k | 0 <= k < |o|
      ensures o[k] < n
    {
      assert o[k] in multiset(Range(n));
    }
  }

  /** Dropping one entry drops one element. */
  lemma MultisetRemove<U>(b: seq<U>, k: nat)
    requires k < |b|
    ensures multiset(b[..k] + b[k + 1..]) == multiset(b) - multiset{b[k]}
  {
    assert b == b[..k] + [b[k]] + b[k + 1..];
  }

  lemma PickSplit<T>(xs: seq<T>, b: seq<nat>, k: nat)
    requires forall i :: 0 <= i < |b| ==> b[i] < |xs|
    requires k < |b|
    ensures Pick(xs, b) == Pick(xs, b[..k]) + [xs[b[k]]] + Pick(xs, b[k + 1..])
    ensures Pick(xs, b[..k] + b[k + 1..]) == Pick(xs, b[..k]) + Pick(xs, b[k + 1..])
  {
  }

  /** Dropping one position drops its element from the picked ones. */
  lemma PickRemove<T>(xs: seq<T>, b: seq<nat>, k: nat)
    requires forall i :: 0 <= i < |b| ==> b[i] < |xs|
    requires k < |b|
    ensures multiset(Pick(xs, b)) == multiset(Pick(xs, b[..k] + b[k + 1..])) + multiset{xs[b[k]]}
  {
    var p, q := Pick(xs, b[..k]), Pick(xs, b[k + 1..]);
    PickSplit(xs, b, k);
    assert multiset(p + [xs[b[k]]] + q) == multiset(p) + multiset{xs[b[k]]} + multiset(q);
  }

  /** Removing the first entry of `a` and a matching entry of `b` keeps
      the two position lists rearrangements of each other. */
  lemma DropMatching(a: seq<nat>, b: seq<nat>, k: nat)
    requires multiset(a) == multiset(b)
    requires a != [] && k < |b| && b[k] == a[0]
    ensures multiset(a[1..]) == multiset(b[..k] + b[k + 1..])
  {
    assert a[..0] + a[1..] == a[1..];
    MultisetRemove(a, 0);
    MultisetRemove(b, k);
  }

  /** Some position of `b` holds `x`. */
  lemma FindIn(b: seq<nat>, x: nat) returns (k: nat)
    requires x in multiset(b)
    ensures k < |b| && b[k] == x
  {
    k :| 0 <= k < |b| && b[k] == x;
  }

  /** Dropping an entry keeps every remaining position below `n`. */
  lemma DropBounds(b: seq<nat>, k: nat, n: nat, rest: seq<nat>)
    requires forall i :: 0 <= i < |b| ==> b[i] < n
    requires k < |b| && rest == b[..k] + b[k + 1..]
    ensures forall i :: 0 <= i < |rest| ==> rest[i] < n
  {
  }

  /** One step of the rearrangement: matching first elements removed. */
  lemma PickStep<T>(xs: seq<T>, a: seq<nat>, b: seq<nat>, k: nat)
    requires forall i :: 0 <= i < |a| ==> a[i] < |xs|
    requires forall i :: 0 <= i < |b| ==> b[i] < |xs|
    requires a != [] && k < |b| && b[k] == a[0]
    requires multiset(Pick(xs, a[1..])) == multiset(Pick(xs, b[..k] + b[k + 1..]))
    ensures multiset(Pick(xs, a)) == multiset(Pick(xs, b))
  {
    PickRemove(xs, a, 0);
    assert a[..0] + a[1..] == a[1..];
    PickRemove(xs, b, k);
  }

  /** Picking by rearranged positions rearranges the elements. */
  lemma {:induction false} PickRearranged<T>(xs: seq<T>, a: seq<nat>, b: seq<nat>)
    requires forall k :: 0 <= k < |a| ==> a[k] < |xs|
    requires forall k :: 0 <= k < |b| ==> b[k] < |xs|
    requires multiset(a) == multiset(b)
    ensures multiset(Pick(xs, a)) == multiset(Pick(xs, b))
    decreases |a|
  {
    if a != [] {
      var k := FindIn(b, a[0]);
      DropMatching(a, b, k);
      var rest := b[..k] + b[k + 1..];
      DropBounds(b, k, |xs|, rest);
      PickRearranged(xs, a[1..], rest);
      PickStep(xs, a, b, k);
    }
  }
}

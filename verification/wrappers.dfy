/** Failure-carrying datatypes, and small generic helpers over them,
    shared by every module of the model.

    - Option<T> stands for Python's `None`-or-value returns.
    - Raisable<T> stands for a call into a collaborator that either returns
      a value or raises an exception; the exception's text is kept because
      several callers inspect `str(e)`.
 */
module Wrappers {

  datatype Option<+T> = None | Some(value: T) {

    /** Returns the value in Some, or `default` for None. */
    function GetOr(default: T): T {
      match this
      case Some(v) => v
      case None => default
    }
  }

  datatype Raisable<+T> = Ok(value: T) | Raised(message: string) {

    /** Converts to Option, forgetting the exception text. */
    function ToOption(): Option<T> {
      match this
      case Ok(v) => Some(v)
      case Raised(_) => None
    }
  }

  /** The first value present in a list of options. */
  function FirstSome<T>(xs: seq<Option<T>>): (r: Option<T>)
    ensures r.None? <==> forall i :: 0 <= i < |xs| ==> xs[i].None?
    ensures r.Some? ==> r in xs
  {
    if xs == [] then None
    else if xs[0].Some? then xs[0]
    else
      assert forall i :: 1 <= i < |xs| ==> xs[i] == xs[1..][i - 1];
      FirstSome(xs[1..])
  }

  /** The value chosen is the one at the first position that has one: a
      later position is looked at only when every earlier one is empty. */
  lemma {:induction false} FirstSomeIsFirst<T>(xs: seq<Option<T>>, i: nat)
    requires i < |xs| && xs[i].Some?
    requires forall j :: 0 <= j < i ==> xs[j].None?
    ensures FirstSome(xs) == xs[i]
  {
    if i > 0 {
      FirstSomeIsFirst(xs[1..], i - 1);
    }
  }

  /** The values present in a list of options, in order. */
  function Present<T>(xs: seq<Option<T>>): (r: seq<T>)
    ensures |r| <= |xs|
    ensures forall k :: 0 <= k < |r| ==> Some(r[k]) in xs
    ensures r == [] <==> forall i :: 0 <= i < |xs| ==> xs[i].None?
  {
    if xs == [] then []
    else
      var rest := Present(xs[1..]);
      assert forall i :: 1 <= i < |xs| ==> xs[i] == xs[1..][i - 1];
      if xs[0].Some? then [xs[0].value] + rest else rest
  }

  function Min(a: int, b: int): (m: int)
    ensures m <= a && m <= b && (m == a || m == b)
  {
    if a <= b then a else b
  }

  /** Python's `s[:n]`: a prefix; a negative bound counts from the end. */
  function Take<T>(s: seq<T>, n: int): (r: seq<T>)
    ensures r <= s
    ensures n >= 0 ==> |r| == Min(n, |s|)
    ensures n < 0 ==> |r| == if |s| + n < 0 then 0 else |s| + n
  {
    if n >= 0 then s[..Min(n, |s|)]
    else if |s| + n < 0 then []
    else s[..|s| + n]
  }

  /** `r` is `s` with some elements left out and the others in their
      order. */
  predicate Subsequence<T(==)>(r: seq<T>, s: seq<T>)
    decreases |s|
  {
    r == [] || (s != [] && ((r[0] == s[0] && Subsequence(r[1..], s[1..])) || Subsequence(r, s[1..])))
  }

  /** `r` is what a filter with test `keep` leaves of `s`: the elements
      `keep` accepts, each as often as in `s`, in their order, and no
      other element. */
  ghost predicate FilterOf<T(!new)>(r: seq<T>, s: seq<T>, keep: T -> bool) {
    && Subsequence(r, s)
    && forall x :: multiset(r)[x] == if keep(x) then multiset(s)[x] else 0
  }

  /** Filtering the tail and then deciding on the head filters the whole
      list. */
  lemma FilterCons<T(!new)>(s: seq<T>, rest: seq<T>, keep: T -> bool)
    requires s != [] && FilterOf(rest, s[1..], keep)
    ensures FilterOf(if keep(s[0]) then [s[0]] + rest else rest, s, keep)
  {
    assert s == [s[0]] + s[1..];
    assert multiset(s) == multiset{s[0]} + multiset(s[1..]);
    if keep(s[0]) {
      var r := [s[0]] + rest;
      assert r[1..] == rest;
      assert multiset(r) == multiset{s[0]} + multiset(rest);
    }
  }

  /** A subset is no larger than its superset. */
  lemma {:induction false} SubsetSize<T>(a: set<T>, b: set<T>)
    requires a <= b
    ensures |a| <= |b|
    decreases a
  {
    if a != {} {
      var x :| x in a;
      SubsetSize(a - {x}, b - {x});
    }
  }
}

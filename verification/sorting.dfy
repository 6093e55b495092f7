/** Column sorting of the result tables: `sort_treeview(column)` in the
    search window (main.py:476-521) and in the channel window
    (main.py:711-757).

    Each call pairs the table's rows with the video records by position,
    sorts the pairs by the column's key with Python's stable sort (in
    reverse when the column's recorded direction is descending), moves the
    rows into that order, replaces the record list, and flips the column's
    direction. The sort is modelled as a stable insertion sort of
    positions; `strptime` on the publication date is a parameter giving the
    date's ordinal.
 */
module Sorting {
  import opened Wrappers
  import opened Text
  import opened Videos
  import opened Positions

  datatype Direction = Asc | Desc

  /** The `sort_{column}` attributes: the direction each column will sort
      in next. A column never sorted has none. */
  type SortState = map<string, Direction>

  /** `getattr(self, f'sort_{column}', 'asc')`. */
  function Current(state: SortState, column: string): Direction {
    if column in state then state[column] else Asc
  }

  /** The attribute after a sort on `column`. */
  function Toggled(state: SortState, column: string): (r: SortState)
    ensures Current(r, column) != Current(state, column)
    ensures forall c :: c != column ==> Current(r, c) == Current(state, c)
  {
    state[column := if Current(state, column) == Asc then Desc else Asc]
  }

  /** The state after `n` sorts on the same column. */
  function Repeated(state: SortState, column: string, n: nat): SortState {
    if n == 0 then state else Toggled(Repeated(state, column, n - 1), column)
  }

  /** A column sorts ascending first and then alternates: the `n`-th sort
      (counting from 0) of a fresh column is ascending exactly when `n` is
      even. */
  lemma {:induction false} Alternates(state: SortState, column: string, n: nat)
    requires column !in state
    ensures Current(Repeated(state, column, n), column) == (if n % 2 == 0 then Asc else Desc)
  {
    if n > 0 {
      Alternates(state, column, n - 1);
    }
  }

  // ---------------------------------------------------------------------
  // Keys

  /** A sort key: a number, or a lower-cased string. */
  datatype Key = Num(value: real) | Str(chars: string)

  /** Python's string order: by code point, a proper prefix first. */
  predicate StrLess(a: string, b: string) {
    if b == [] then false
    else if a == [] then true
    else if a[0] != b[0] then a[0] < b[0]
    else StrLess(a[1..], b[1..])
  }

  /** The key order. A column's keys are all of one kind; numbers are put
      first only to make the order total. */
  predicate KeyLess(a: Key, b: Key) {
    match (a, b)
    case (Num(x), Num(y)) => x < y
    case (Str(x), Str(y)) => StrLess(x, y)
    case (Num(_), Str(_)) => true
    case (Str(_), Num(_)) => false
  }

  lemma {:induction false} StrLessIrreflexive(a: string)
    ensures !StrLess(a, a)
  {
    if a != [] {
      StrLessIrreflexive(a[1..]);
    }
  }

  lemma {:induction false} StrLessTransitive(a: string, b: string, c: string)
    requires StrLess(a, b) && StrLess(b, c)
    ensures StrLess(a, c)
  {
    if a != [] && a[0] == b[0] && b[0] == c[0] {
      StrLessTransitive(a[1..], b[1..], c[1..]);
    }
  }

  lemma {:induction false} StrLessTotal(a: string, b: string)
    requires a != b
    ensures StrLess(a, b) || StrLess(b, a)
  {
    if a != [] && b != [] && a[0] == b[0] {
      assert a == [a[0]] + a[1..] && b == [b[0]] + b[1..];
      StrLessTotal(a[1..], b[1..]);
    }
  }

  /** The key order is a strict total order. */
  lemma KeyLessOrder(a: Key, b: Key, c: Key)
    ensures !KeyLess(a, a)
    ensures KeyLess(a, b) && KeyLess(b, c) ==> KeyLess(a, c)
    ensures a != b ==> KeyLess(a, b) || KeyLess(b, a)
  {
    if a.Str? {
      StrLessIrreflexive(a.chars);
      if b.Str? && c.Str? && KeyLess(a, b) && KeyLess(b, c) {
        StrLessTransitive(a.chars, b.chars, c.chars);
      }
      if b.Str? && a != b {
        StrLessTotal(a.chars, b.chars);
      }
    }
  }

  /** Which `sort_treeview` runs: the search window's or the channel
      window's. They know different columns. */
  datatype Window = SearchWindow | ChannelWindow

  /** The ordinal of `datetime.min`, the key of an unreadable date. */
  const DateMin: int := 1

  /** `sort_key(item)`: the column's key for a record; None where the
      record lacks the field (a missing `outlier_score` raises KeyError). */
  function SortKey(window: Window, column: string, v: Video, date: string -> Option<int>): (k: Option<Key>)
    ensures k.None? ==> column == "Outlier Score" && v.outlierScore.None?
  {
    if column == "Title" then Some(Str(AsciiLower(v.title)))
    else if column == "Views" then Some(Num(v.viewCount as real))
    else if column == "Outlier Score" then
      if v.outlierScore.Some? then Some(Num(v.outlierScore.value)) else None
    else if column == "Duration" then Some(Num(v.durationSeconds as real))
    else
      match window
      case SearchWindow =>
        if column == "Subscribers" then Some(Num(v.subscriberCount as real))
        else if column == "Channel" then Some(Str(AsciiLower(v.channelTitle)))
        else Some(Num(0.0))
      case ChannelWindow =>
        if column == "Published" then Some(Num(date(Take(v.publishedAt, 10)).GetOr(DateMin) as real))
        else Some(Num(0.0))
  }

  // ---------------------------------------------------------------------
  // Stable sort of positions

  /** Position `i` goes before position `j`: its key comes first in the
      direction of the sort, or the keys are equal and `i` was first (the
      sort is stable, also in reverse). */
  predicate Precedes(keys: seq<Key>, desc: bool, i: nat, j: nat)
    requires i < |keys| && j < |keys|
  {
    (if desc then KeyLess(keys[j], keys[i]) else KeyLess(keys[i], keys[j]))
    || (keys[i] == keys[j] && i < j)
  }

  predicate InRange(keys: seq<Key>, s: seq<nat>) {
    forall k :: 0 <= k < |s| ==> s[k] < |keys|
  }

  /** Every earlier position precedes every later one. */
  predicate Ordered(keys: seq<Key>, desc: bool, s: seq<nat>)
    requires InRange(keys, s)
  {
    forall i, j :: 0 <= i < j < |s| ==> Precedes(keys, desc, s[i], s[j])
  }

  lemma PrecedesOrder(keys: seq<Key>, desc: bool, i: nat, j: nat, k: nat)
    requires i < |keys| && j < |keys| && k < |keys|
    ensures !Precedes(keys, desc, i, i)
    ensures Precedes(keys, desc, i, j) && Precedes(keys, desc, j, k) ==> Precedes(keys, desc, i, k)
    ensures i != j ==> Precedes(keys, desc, i, j) || Precedes(keys, desc, j, i)
  {
    KeyLessOrder(keys[i], keys[j], keys[k]);
    KeyLessOrder(keys[k], keys[j], keys[i]);
    KeyLessOrder(keys[j], keys[i], keys[k]);
  }

  function InsertPosition(keys: seq<Key>, desc: bool, x: nat, s: seq<nat>): (r: seq<nat>)
    requires x < |keys| && InRange(keys, s)
    ensures InRange(keys, r)
    ensures multiset(r) == multiset(s) + multiset{x}
  {
    if s == [] || Precedes(keys, desc, x, s[0]) then [x] + s
    else
      assert s == [s[0]] + s[1..];
      [s[0]] + InsertPosition(keys, desc, x, s[1..])
  }

  /** Insertion sort of positions. */
  function SortPositions(keys: seq<Key>, desc: bool, s: seq<nat>): (r: seq<nat>)
    requires InRange(keys, s)
    ensures InRange(keys, r)
    ensures multiset(r) == multiset(s)
  {
    if s == [] then []
    else
      assert s == s[..|s| - 1] + [s[|s| - 1]];
      InsertPosition(keys, desc, s[|s| - 1], SortPositions(keys, desc, s[..|s| - 1]))
  }

  lemma {:induction false} InsertOrdered(keys: seq<Key>, desc: bool, x: nat, s: seq<nat>)
    requires x < |keys| && InRange(keys, s) && Ordered(keys, desc, s) && x !in s
    ensures Ordered(keys, desc, InsertPosition(keys, desc, x, s))
  {
    if s == [] {
    } else if Precedes(keys, desc, x, s[0]) {
      InsertFirst(keys, desc, x, s);
    } else {
      InsertOrdered(keys, desc, x, s[1..]);
      InsertLater(keys, desc, x, s);
    }
  }

  /** A position that precedes the first of an ordered list precedes all
      of it. */
  lemma InsertFirst(keys: seq<Key>, desc: bool, x: nat, s: seq<nat>)
    requires x < |keys| && InRange(keys, s) && Ordered(keys, desc, s)
    requires s != [] && Precedes(keys, desc, x, s[0])
    ensures Ordered(keys, desc, [x] + s)
  {
    var r := [x] + s;
    forall j | 1 <= j < |r|
      ensures Precedes(keys, desc, x, r[j])
    {
      if j > 1 {
        PrecedesOrder(keys, desc, x, s[0], r[j]);
      }
    }
  }

  /** A position that does not precede the first of an ordered list is
      inserted after it, and the first still precedes everything. */
  lemma InsertLater(keys: seq<Key>, desc: bool, x: nat, s: seq<nat>)
    requires x < |keys| && InRange(keys, s) && Ordered(keys, desc, s) && x !in s
    requires s != [] && !Precedes(keys, desc, x, s[0])
    requires Ordered(keys, desc, InsertPosition(keys, desc, x, s[1..]))
    ensures Ordered(keys, desc, [s[0]] + InsertPosition(keys, desc, x, s[1..]))
  {
    var rest := InsertPosition(keys, desc, x, s[1..]);
    HeadPrecedesRest(keys, desc, x, s, rest);
    var r := [s[0]] + rest;
    forall i, j | 0 <= i < j < |r|
      ensures Precedes(keys, desc, r[i], r[j])
    {
      assert r[j] == rest[j - 1];
      if i == 0 {
        assert r[i] == s[0];
        assert Precedes(keys, desc, s[0], rest[j - 1]);
      } else {
        assert r[i] == rest[i - 1];
      }
    }
  }

  lemma HeadPrecedesRest(keys: seq<Key>, desc: bool, x: nat, s: seq<nat>, rest: seq<nat>)
    requires x < |keys| && InRange(keys, s) && Ordered(keys, desc, s) && x !in s
    requires s != [] && !Precedes(keys, desc, x, s[0])
    requires rest == InsertPosition(keys, desc, x, s[1..])
    ensures forall j :: 0 <= j < |rest| ==> rest[j] < |keys| && Precedes(keys, desc, s[0], rest[j])
  {
    var tail := s[1..];
    PrecedesOrder(keys, desc, s[0], x, s[0]);
    forall j | 0 <= j < |rest|
      ensures Precedes(keys, desc, s[0], rest[j])
    {
      assert rest[j] in multiset(rest);
      if rest[j] != x {
        var k :| 0 <= k < |tail| && tail[k] == rest[j];
        assert tail[k] == s[k + 1];
      }
    }
  }

  lemma {:induction false} SortOrdered(keys: seq<Key>, desc: bool, s: seq<nat>)
    requires InRange(keys, s)
    requires forall i, j :: 0 <= i < j < |s| ==> s[i] != s[j]
    ensures Ordered(keys, desc, SortPositions(keys, desc, s))
  {
    if s != [] {
      var init := s[..|s| - 1];
      SortOrdered(keys, desc, init);
      var sorted := SortPositions(keys, desc, init);
      assert s[|s| - 1] !in init;
      assert s[|s| - 1] !in multiset(sorted);
      InsertOrdered(keys, desc, s[|s| - 1], sorted);
    }
  }

  // ---------------------------------------------------------------------
  // sort_treeview

  /** The rows in their new order, the new record list, the new sort
      state, and the positions the new order was taken from. */
  datatype Resorted = Resorted(children: seq<string>, videos: seq<Video>, state: SortState, order: seq<nat>)

  /** The keys of the paired records; None when one of them lacks the
      column's field. */
  function Keys(window: Window, column: string, videos: seq<Video>, date: string -> Option<int>): (r: Option<seq<Key>>)
    ensures r.Some? ==> |r.value| == |videos|
    ensures r.Some? ==> forall i :: 0 <= i < |videos| ==> SortKey(window, column, videos[i], date) == Some(r.value[i])
    ensures r.None? ==> exists i :: 0 <= i < |videos| && SortKey(window, column, videos[i], date).None?
  {
    if forall i :: 0 <= i < |videos| ==> SortKey(window, column, videos[i], date).Some? then
      Some(seq(|videos|, i requires 0 <= i < |videos| => SortKey(window, column, videos[i], date).value))
    else None
  }

  /** `sort_treeview(column)`: Raised (and nothing changes) when a paired
      record lacks the column's field; otherwise the paired records and rows
      in the new order, the unpaired rows after them, and the column's
      direction flipped. */
  function SortTreeview(window: Window, column: string, state: SortState, children: seq<string>,
                        videos: seq<Video>, date: string -> Option<int>): (r: Raisable<Resorted>)
    ensures r.Raised? <==> Keys(window, column, videos[..Min(|children|, |videos|)], date).None?
    ensures r.Ok? ==> r.value.state == Toggled(state, column)
    ensures r.Ok? ==> var n := Min(|children|, |videos|);
                      var o := r.value.order;
                      multiset(o) == multiset(Range(n))
                      && (forall k :: 0 <= k < |o| ==> o[k] < n)
                      && r.value.videos == Pick(videos, o)
                      && r.value.children == Pick(children, o) + children[n..]
    ensures r.Ok? ==> Ordered(Keys(window, column, videos[..Min(|children|, |videos|)], date).value,
                              Current(state, column) == Desc, r.value.order)
  {
    var n := Min(|children|, |videos|);
    var keys := Keys(window, column, videos[..n], date);
    if keys.None? then Raised("outlier_score")
    else
      var desc := Current(state, column) == Desc;
      var o := SortPositions(keys.value, desc, Range(n));
      SortOrdered(keys.value, desc, Range(n));
      RearrangementBounds(o, n);
      Ok(Resorted(Pick(children, o) + children[n..], Pick(videos, o), Toggled(state, column), o))
  }

  /** The new record list is a rearrangement of the paired records. */
  lemma SortedIsRearrangement(window: Window, column: string, state: SortState, children: seq<string>,
                              videos: seq<Video>, date: string -> Option<int>)
    requires SortTreeview(window, column, state, children, videos, date).Ok?
    ensures var r := SortTreeview(window, column, state, children, videos, date).value;
            multiset(r.videos) == multiset(videos[..Min(|children|, |videos|)])
  {
    var r := SortTreeview(window, column, state, children, videos, date).value;
    var n := Min(|children|, |videos|);
    PickRearranged(videos, r.order, Range(n));
    assert Pick(videos, Range(n)) == videos[..n];
  }

  /** The new record list is in the column's order (non-decreasing
      ascending, non-increasing descending), and records with equal keys
      keep their previous relative order. */
  lemma SortedByColumn(window: Window, column: string, state: SortState, children: seq<string>,
                       videos: seq<Video>, date: string -> Option<int>)
    requires SortTreeview(window, column, state, children, videos, date).Ok?
    ensures var r := SortTreeview(window, column, state, children, videos, date).value;
            var keys := Keys(window, column, r.videos, date);
            var desc := Current(state, column) == Desc;
            keys.Some?
            && forall i, j :: 0 <= i < j < |r.videos| ==>
                 (if desc then !KeyLess(keys.value[i], keys.value[j]) else !KeyLess(keys.value[j], keys.value[i]))
                 && (keys.value[i] == keys.value[j] ==> r.order[i] < r.order[j])
  {
    var r := SortTreeview(window, column, state, children, videos, date).value;
    var n := Min(|children|, |videos|);
    var before := Keys(window, column, videos[..n], date).value;
    var desc := Current(state, column) == Desc;
    assert forall i :: 0 <= i < |r.videos| ==> SortKey(window, column, r.videos[i], date) == Some(before[r.order[i]]);
    var after := Keys(window, column, r.videos, date).value;
    forall i, j | 0 <= i < j < |r.videos|
      ensures (if desc then !KeyLess(after[i], after[j]) else !KeyLess(after[j], after[i]))
              && (after[i] == after[j] ==> r.order[i] < r.order[j])
    {
      PrecedesKeys(before, desc, r.order[i], r.order[j]);
    }
  }

  /** What precedence says about the two keys. */
  lemma PrecedesKeys(keys: seq<Key>, desc: bool, p: nat, q: nat)
    requires p < |keys| && q < |keys| && Precedes(keys, desc, p, q)
    ensures if desc then !KeyLess(keys[p], keys[q]) else !KeyLess(keys[q], keys[p])
    ensures keys[p] == keys[q] ==> p < q
  {
    KeyLessOrder(keys[p], keys[q], keys[p]);
    KeyLessOrder(keys[q], keys[p], keys[q]);
  }
}

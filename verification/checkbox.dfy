/** The checked-set state of `CheckboxTreeview` (main.py:15-174): a
    table whose first column shows ☑ or ☐, and the set of checked rows
    behind it.

    The Tk table is the sequence of row ids in display order and each row's
    `values` list. Tk's own refusals (an unknown row id, a reused id) are
    preconditions: the widget code only passes rows it got from the table,
    and Tk generates fresh ids on insertion. The selection-change callback
    is left out.
 */
module Checkbox {
  import opened Wrappers

  const Unchecked: string := "☐"
  const Checked: string := "☑"

  datatype Tree = Tree(children: seq<string>, values: map<string, seq<string>>, checked: set<string>)

  /** The rows, as a set. */
  function Rows(t: Tree): set<string> {
    set c | c in t.children
  }

  /** The mark the first column shows for a row. */
  function Mark(on: bool): string {
    if on then Checked else Unchecked
  }

  predicate Distinct(s: seq<string>) {
    forall i, j :: 0 <= i < j < |s| ==> s[i] != s[j]
  }

  /** The rows' values have a first column to overwrite. */
  predicate HasMarkColumn(t: Tree) {
    forall c :: c in t.values ==> |t.values[c]| >= 1
  }

  /** The state the widget keeps: each row listed once, with values, the
      checked rows among them, and every row's mark matching its state. */
  predicate Valid(t: Tree) {
    Distinct(t.children)
    && t.values.Keys == Rows(t)
    && t.checked <= t.values.Keys
    && HasMarkColumn(t)
    && (forall c :: c in t.values ==> t.values[c][0] == Mark(c in t.checked))
  }

  /** An empty table. */
  function Empty(): (t: Tree)
    ensures Valid(t) && t.checked == {}
  {
    Tree([], map[], {})
  }

  /** `values[0] = mark` for one row. */
  function Remark(values: map<string, seq<string>>, item: string, mark: string): (r: map<string, seq<string>>)
    requires item in values && |values[item]| >= 1
    ensures r.Keys == values.Keys
    ensures r[item] == [mark] + values[item][1..]
    ensures forall c :: c in values && c != item ==> r[c] == values[c]
  {
    values[item := [mark] + values[item][1..]]
  }

  /** `values[0] = mark` for every row. */
  function RemarkAll(values: map<string, seq<string>>, mark: string): (r: map<string, seq<string>>)
    requires forall c :: c in values ==> |values[c]| >= 1
    ensures r.Keys == values.Keys
    ensures forall c :: c in values ==> r[c] == [mark] + values[c][1..]
  {
    map c | c in values :: [mark] + values[c][1..]
  }

  /** `toggle_item(item)`. */
  function ToggleItem(t: Tree, item: string): (r: Tree)
    requires item in t.values && |t.values[item]| >= 1
    ensures r.values.Keys == t.values.Keys && r.children == t.children
    ensures item in r.checked <==> item !in t.checked
    ensures forall c :: c != item ==> (c in r.checked <==> c in t.checked)
    ensures r.values[item] == [Mark(item in r.checked)] + t.values[item][1..]
    ensures forall c :: c in t.values && c != item ==> r.values[c] == t.values[c]
    ensures Valid(t) ==> Valid(r)
  {
    if item in t.checked then
      t.(checked := t.checked - {item}, values := Remark(t.values, item, Unchecked))
    else
      t.(checked := t.checked + {item}, values := Remark(t.values, item, Checked))
  }

  /** `select_all()`: every row checked. */
  function SelectAll(t: Tree): (r: Tree)
    requires HasMarkColumn(t)
    ensures r.values.Keys == t.values.Keys && r.children == t.children
    ensures r.checked == Rows(t)
    ensures forall c :: c in t.values ==> r.values[c] == [Checked] + t.values[c][1..]
    ensures Valid(t) ==> Valid(r)
  {
    t.(checked := Rows(t), values := RemarkAll(t.values, Checked))
  }

  /** `deselect_all()`: no row checked. */
  function DeselectAll(t: Tree): (r: Tree)
    requires HasMarkColumn(t)
    ensures r.values.Keys == t.values.Keys && r.children == t.children
    ensures r.checked == {}
    ensures forall c :: c in t.values ==> r.values[c] == [Unchecked] + t.values[c][1..]
    ensures Valid(t) ==> Valid(r)
  {
    t.(checked := {}, values := RemarkAll(t.values, Unchecked))
  }

  /** `toggle_all()`: deselect when as many rows are checked as there are
      rows, otherwise select all. */
  function ToggleAll(t: Tree): (r: Tree)
    requires HasMarkColumn(t)
    ensures |t.checked| == |t.children| ==> r == DeselectAll(t)
    ensures |t.checked| != |t.children| ==> r == SelectAll(t)
  {
    if |t.checked| == |t.children| then DeselectAll(t) else SelectAll(t)
  }

  /** `insert(parent, index, values=vals)` under a fresh id: the row is
      placed at `index` (at the end for "end" or a larger index) and shows
      an unchecked mark in front of its values. */
  function Insert(t: Tree, id: string, index: Option<nat>, vals: seq<string>): (r: Tree)
    requires id !in t.values
    ensures r.values == t.values[id := [Unchecked] + vals]
    ensures r.checked == t.checked
    ensures |r.children| == |t.children| + 1
    ensures multiset(r.children) == multiset(t.children) + multiset{id}
    ensures index.None? || index.value >= |t.children| ==> r.children == t.children + [id]
    ensures index.Some? && index.value <= |t.children| ==>
              && r.children[index.value] == id
              && r.children[..index.value] == t.children[..index.value]
              && r.children[index.value + 1..] == t.children[index.value..]
  {
    var at := if index.None? || index.value > |t.children| then |t.children| else index.value;
    t.(children := Place(t.children, at, id), values := t.values[id := [Unchecked] + vals])
  }

  /** `id` placed at position `at`, the rows before and after it kept. */
  function Place(s: seq<string>, at: nat, id: string): (r: seq<string>)
    requires at <= |s|
    ensures |r| == |s| + 1 && r[at] == id
    ensures r[..at] == s[..at] && r[at + 1..] == s[at..]
    ensures at == |s| ==> r == s + [id]
    ensures multiset(r) == multiset(s) + multiset{id}
  {
    assert s == s[..at] + s[at..];
    s[..at] + [id] + s[at..]
  }

  /** The rows of `s` not in `gone`, in order. */
  function Without(s: seq<string>, gone: set<string>): (r: seq<string>)
    ensures forall c :: c in r <==> c in s && c !in gone
    ensures Distinct(s) ==> Distinct(r)
    ensures FilterOf(r, s, c => c !in gone)
  {
    if s == [] then []
    else
      var rest := Without(s[1..], gone);
      WithoutStep(s, gone, rest);
      if s[0] in gone then rest else [s[0]] + rest
  }

  /** One row in front of a filtered rest. */
  lemma WithoutStep(s: seq<string>, gone: set<string>, rest: seq<string>)
    requires s != []
    requires forall c :: c in rest <==> c in s[1..] && c !in gone
    requires Distinct(s[1..]) ==> Distinct(rest)
    requires FilterOf(rest, s[1..], c => c !in gone)
    ensures var r := if s[0] in gone then rest else [s[0]] + rest;
            && (forall c :: c in r <==> c in s && c !in gone)
            && (Distinct(s) ==> Distinct(r))
            && FilterOf(r, s, c => c !in gone)
  {
    assert s == [s[0]] + s[1..];
    FilterCons(s, rest, c => c !in gone);
    if Distinct(s) {
      assert Distinct(s[1..]);
      assert s[0] !in s[1..];
    }
  }

  /** `delete(*items)`: the rows leave the table and the checked set. */
  function Delete(t: Tree, items: set<string>): (r: Tree)
    requires items <= t.values.Keys
    ensures r.checked == t.checked - items
    ensures forall c :: c in r.children <==> c in t.children && c !in items
    ensures FilterOf(r.children, t.children, c => c !in items)
    ensures forall c :: c in r.values <==> c in t.values && c !in items
    ensures forall c :: c in r.values ==> r.values[c] == t.values[c]
    ensures Valid(t) ==> Valid(r)
  {
    Tree(Without(t.children, items), t.values - items, t.checked - items)
  }

  // ---------------------------------------------------------------------
  // The invariant

  lemma InsertValid(t: Tree, id: string, index: Option<nat>, vals: seq<string>)
    requires Valid(t) && id !in t.values
    ensures Valid(Insert(t, id, index, vals))
  {
    var at := if index.None? || index.value > |t.children| then |t.children| else index.value;
    var r := Insert(t, id, index, vals);
    assert Distinct(r.children) && Rows(r) == Rows(t) + {id} by {
      Splice(t.children, at, id);
    }
    NewRowMarked(t.values, t.checked, id, vals);
  }

  /** A new unchecked row, shown unchecked, keeps every mark in step. */
  lemma NewRowMarked(values: map<string, seq<string>>, checked: set<string>, id: string, vals: seq<string>)
    requires id !in checked
    requires forall c :: c in values ==> |values[c]| >= 1 && values[c][0] == Mark(c in checked)
    ensures var r := values[id := [Unchecked] + vals];
            forall c :: c in r ==> |r[c]| >= 1 && r[c][0] == Mark(c in checked)
  {
  }

  /** Placing a new row keeps the rows distinct and adds just that row. */
  lemma Splice(s: seq<string>, at: nat, id: string)
    requires Distinct(s) && id !in s && at <= |s|
    ensures var r := Place(s, at, id);
            Distinct(r) && (set c | c in r) == (set c | c in s) + {id}
  {
    var r := Place(s, at, id);
    forall i, j | 0 <= i < j < |r|
      ensures r[i] != r[j]
    {
      if i < at && j > at {
        assert r[j] == s[j - 1];
      } else if i > at {
        assert r[i] == s[i - 1] && r[j] == s[j - 1];
      }
    }
    assert s == s[..at] + s[at..];
  }

  /** Distinct rows are as many as their set. */
  lemma {:induction false} DistinctSize(s: seq<string>)
    requires Distinct(s)
    ensures |set c | c in s| == |s|
  {
    if s != [] {
      DistinctSize(s[1..]);
      assert (set c | c in s) == (set c | c in s[1..]) + {s[0]};
      assert s[0] !in s[1..];
    }
  }

  /** In a valid table, `toggle_all` clears exactly when every row is
      checked: the size comparison is a set comparison. */
  lemma ToggleAllFlips(t: Tree)
    requires Valid(t)
    ensures ToggleAll(t).checked == (if t.checked == Rows(t) then {} else Rows(t))
  {
    var all := Rows(t);
    DistinctSize(t.children);
    if t.checked != all {
      assert t.checked < all;
      var x :| x in all && x !in t.checked;
      SubsetSize(t.checked, all - {x});
    }
  }

  /** Toggling a row twice restores the table. */
  lemma ToggleItemTwice(t: Tree, item: string)
    requires Valid(t) && item in t.values
    ensures ToggleItem(ToggleItem(t, item), item) == t
  {
    var r := ToggleItem(ToggleItem(t, item), item);
    assert t.values[item] == [t.values[item][0]] + t.values[item][1..];
    assert r.values == t.values;
    assert r.checked == t.checked;
  }
}

/** Batches that write one file per input: the bookkeeping shared by the
    quick extractor's loop (quick_transcript_extractor.py:215-260) and the
    main window's transcript export (main.py:870-943).

    Each input yields an item, and an item may have created a file. Every
    input is handled given the paths that existed before the batch plus the
    files the earlier items created.
 */
module Batch {
  import opened Wrappers

  /** The files the items created. */
  function Created<I>(items: seq<I>, file: I -> Option<string>): set<string> {
    if items == [] then {}
    else
      var last := items[|items| - 1];
      Created(items[..|items| - 1], file) + (if file(last).Some? then {file(last).value} else {})
  }

  /** The positions of the items that satisfy `counted`. */
  function CountedAt<I>(items: seq<I>, counted: I -> bool): set<nat> {
    set i: nat | i < |items| && counted(items[i])
  }

  /** How many items satisfy `counted`. */
  function Count<I>(items: seq<I>, counted: I -> bool): (n: nat)
    ensures n <= |items|
  {
    if items == [] then 0
    else Count(items[..|items| - 1], counted) + (if counted(items[|items| - 1]) then 1 else 0)
  }

  /** The count is the number of positions holding an item that counts. */
  lemma {:induction false} CountPositions<I>(items: seq<I>, counted: I -> bool)
    ensures Count(items, counted) == |CountedAt(items, counted)|
  {
    if items != [] {
      CountPositions(items[..|items| - 1], counted);
      CountedAtLast(items, counted);
    }
  }

  /** The counted positions of a sequence are those of its prefix, plus
      the last position when its item counts. */
  lemma CountedAtLast<I>(items: seq<I>, counted: I -> bool)
    requires items != []
    ensures var m := |items| - 1;
            CountedAt(items, counted) == CountedAt(items[..m], counted) + (if counted(items[m]) then {m} else {})
            && m !in CountedAt(items[..m], counted)
  {
    var m := |items| - 1;
    assert forall i :: 0 <= i < m ==> items[..m][i] == items[i];
  }

  /** Nothing counts exactly when the count is 0, and everything counts
      exactly when the count is the number of items. */
  lemma {:induction false} CountExtremes<I>(items: seq<I>, counted: I -> bool)
    ensures Count(items, counted) == 0 <==> forall i :: 0 <= i < |items| ==> !counted(items[i])
    ensures Count(items, counted) == |items| <==> forall i :: 0 <= i < |items| ==> counted(items[i])
  {
    if items != [] {
      var m := |items| - 1;
      CountExtremes(items[..m], counted);
      assert forall i :: 0 <= i < m ==> items[..m][i] == items[i];
    }
  }

  /** Every input's item is related to it by `rel`, each given the paths
      taken before it. */
  predicate AllFor<I, U>(items: seq<I>, inputs: seq<U>, rel: (I, U, set<string>) -> bool,
                         file: I -> Option<string>, existing: set<string>)
  {
    |items| == |inputs|
    && (items == []
        || var n := |items| - 1;
           AllFor(items[..n], inputs[..n], rel, file, existing)
           && rel(items[n], inputs[n], existing + Created(items[..n], file)))
  }

  /** AllFor, one input at a time. */
  lemma {:induction false} AllForEach<I, U>(items: seq<I>, inputs: seq<U>, rel: (I, U, set<string>) -> bool,
                                            file: I -> Option<string>, existing: set<string>)
    requires AllFor(items, inputs, rel, file, existing)
    ensures |items| == |inputs|
    ensures forall i :: 0 <= i < |inputs| ==> rel(items[i], inputs[i], existing + Created(items[..i], file))
  {
    if items != [] {
      var n := |items| - 1;
      AllForEach(items[..n], inputs[..n], rel, file, existing);
      forall i | 0 <= i < |inputs|
        ensures rel(items[i], inputs[i], existing + Created(items[..i], file))
      {
        if i < n {
          assert items[..n][..i] == items[..i];
          assert items[..n][i] == items[i] && inputs[..n][i] == inputs[i];
        }
      }
    }
  }

  /** A created file is among the batch's files. */
  lemma {:induction false} CreatedHas<I>(items: seq<I>, file: I -> Option<string>, j: nat)
    requires j < |items| && file(items[j]).Some?
    ensures file(items[j]).value in Created(items, file)
    decreases |items|
  {
    if j < |items| - 1 {
      var prefix := items[..|items| - 1];
      assert prefix[j] == items[j];
      CreatedHas(prefix, file, j);
    }
  }

  /** When every created file was free at its turn, no file existed before
      and no two items created the same file. */
  lemma NothingOverwritten<I>(items: seq<I>, file: I -> Option<string>, existing: set<string>)
    requires forall i :: 0 <= i < |items| && file(items[i]).Some? ==>
               file(items[i]).value !in existing + Created(items[..i], file)
    ensures forall i :: 0 <= i < |items| && file(items[i]).Some? ==> file(items[i]).value !in existing
    ensures forall i, k :: 0 <= i < k < |items| && file(items[i]).Some? && file(items[k]).Some?
                           ==> file(items[i]).value != file(items[k]).value
  {
    forall i, k | 0 <= i < k < |items| && file(items[i]).Some? && file(items[k]).Some?
      ensures file(items[i]).value != file(items[k]).value
    {
      var prefix := items[..k];
      assert prefix[i] == items[i];
      CreatedHas(prefix, file, i);
    }
  }
}

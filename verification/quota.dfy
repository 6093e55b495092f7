/** The API quota tracker of `YouTubeAPI` (youtube_api.py:41-78): a usage
    counter checked against a daily limit, with a warning once usage
    reaches a threshold. The warning is the line the source prints; the
    model returns it instead. The `percentage` field of the status report
    is a float and is not modelled.
 */
module Quota {
  import opened Wrappers

  const DailyLimit: int := 10000
  const WarningThreshold: int := 8000

  datatype Tracker = Tracker(used: int, limit: int, warningThreshold: int)

  /** The tracker of a freshly constructed client. */
  function Fresh(): (t: Tracker)
    ensures t.used == 0 && t.limit == DailyLimit && t.warningThreshold == WarningThreshold
  {
    Tracker(0, DailyLimit, WarningThreshold)
  }

  /** `check_quota_available(required)`. */
  predicate Available(t: Tracker, required: int) {
    t.used + required <= t.limit
  }

  /** The outcome of `use_quota(amount)`: the new tracker and, when the
      warning line is printed, the remaining budget it reports. */
  datatype UseOutcome = UseOutcome(tracker: Tracker, warning: Option<int>)

  /** `use_quota(amount)`. The source does not reject negative amounts. */
  function Use(t: Tracker, amount: int): (o: UseOutcome)
    ensures o.tracker.limit == t.limit && o.tracker.warningThreshold == t.warningThreshold
    ensures amount >= 0 ==> o.tracker.used >= t.used
    ensures o.warning.Some? <==> o.tracker.used >= t.warningThreshold
    ensures o.warning.Some? ==> o.warning.value + o.tracker.used == t.limit
  {
    var used := t.used + amount;
    var t' := t.(used := used);
    UseOutcome(t', if used >= t.warningThreshold then Some(t.limit - used) else None)
  }

  /** The integer part of `get_quota_status()`. */
  datatype Status = Status(used: int, limit: int, remaining: int)

  function GetStatus(t: Tracker): (s: Status)
    ensures s.used == t.used && s.limit == t.limit
    ensures s.used + s.remaining == s.limit
    ensures s.remaining >= 0 <==> Available(t, 0)
  {
    Status(t.used, t.limit, t.limit - t.used)
  }

  /** A fresh client can afford exactly the daily limit and not one more. */
  lemma FreshBudget()
    ensures Available(Fresh(), DailyLimit)
    ensures !Available(Fresh(), DailyLimit + 1)
  {
  }

  /** After spending the whole limit, not even one unit is available. */
  lemma ExhaustedAfterLimit()
    ensures !Available(Use(Fresh(), DailyLimit).tracker, 1)
    ensures Use(Fresh(), DailyLimit).warning == Some(0)
  {
  }

  /** Spending `amount` and then asking for `required` is the same as
      asking for both at once. */
  lemma UseThenAvailable(t: Tracker, amount: int, required: int)
    ensures Available(Use(t, amount).tracker, required) <==> Available(t, amount + required)
  {
  }

  /** Availability is downward closed in the requested amount. */
  lemma AvailableSmaller(t: Tracker, required: int, smaller: int)
    requires Available(t, required) && smaller <= required
    ensures Available(t, smaller)
  {
  }

  /** A run of `use_quota` calls, returning the final tracker and the
      warnings printed along the way, one per call (None when silent). */
  function UseAll(t: Tracker, amounts: seq<int>): (r: (Tracker, seq<Option<int>>))
    ensures |r.1| == |amounts|
    ensures r.0.limit == t.limit && r.0.warningThreshold == t.warningThreshold
    decreases |amounts|
  {
    if amounts == [] then (t, [])
    else
      var o := Use(t, amounts[0]);
      var rest := UseAll(o.tracker, amounts[1..]);
      (rest.0, [o.warning] + rest.1)
  }

  function Sum(xs: seq<int>): int {
    if xs == [] then 0 else xs[0] + Sum(xs[1..])
  }

  predicate NonNegative(xs: seq<int>) {
    forall k :: 0 <= k < |xs| ==> xs[k] >= 0
  }

  /** After a run of uses the counter holds the start value plus the total
      spent, and with non-negative amounts it never went down. */
  lemma {:induction false} UseAllTotal(t: Tracker, amounts: seq<int>)
    ensures UseAll(t, amounts).0.used == t.used + Sum(amounts)
    ensures NonNegative(amounts) ==> UseAll(t, amounts).0.used >= t.used
    decreases |amounts|
  {
    if amounts != [] {
      UseAllTotal(Use(t, amounts[0]).tracker, amounts[1..]);
      assert NonNegative(amounts) ==> NonNegative(amounts[1..]);
    }
  }

  /** With non-negative amounts, once the warning has been printed it is
      printed on every later call too. */
  lemma {:induction false} WarningPersists(t: Tracker, amounts: seq<int>, i: nat, j: nat)
    requires NonNegative(amounts)
    requires i <= j < |amounts|
    requires UseAll(t, amounts).1[i].Some?
    ensures UseAll(t, amounts).1[j].Some?
    decreases |amounts|
  {
    var o := Use(t, amounts[0]);
    assert NonNegative(amounts[1..]);
    assert UseAll(t, amounts).1 == [o.warning] + UseAll(o.tracker, amounts[1..]).1;
    if i == 0 {
      if j > 0 {
        assert o.tracker.used >= t.warningThreshold;
        WarnedStaysWarned(o.tracker, amounts[1..], j - 1);
      }
    } else {
      WarningPersists(o.tracker, amounts[1..], i - 1, j - 1);
    }
  }

  /** A tracker already at or above the threshold warns on every later
      non-negative use. */
  lemma {:induction false} WarnedStaysWarned(t: Tracker, amounts: seq<int>, j: nat)
    requires NonNegative(amounts)
    requires t.used >= t.warningThreshold
    requires j < |amounts|
    ensures UseAll(t, amounts).1[j].Some?
    decreases |amounts|
  {
    var o := Use(t, amounts[0]);
    assert UseAll(t, amounts).1 == [o.warning] + UseAll(o.tracker, amounts[1..]).1;
    if j > 0 {
      assert NonNegative(amounts[1..]);
      WarnedStaysWarned(o.tracker, amounts[1..], j - 1);
    }
  }
}

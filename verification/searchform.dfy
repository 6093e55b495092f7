/** Reading the search form of the main window (main.py:342-376): the
    keyword, the video-type and upload-period choices, and the three numeric
    fields, turned into the arguments of a video search or into one of the
    two input errors the window reports.

    The numeric fields are read with Python's `int(str)`: surrounding
    whitespace is ignored, one optional sign is allowed, and the digits may
    be grouped by single underscores. Only ASCII digits are modelled.
 */
module SearchForm {
  import opened Wrappers
  import opened Text
  import opened Videos

  /** The choice that lifts a numeric bound. */
  const NoLimit := "제한 없음"
  /** The video-type and upload-period choice that imposes nothing. */
  const Everything := "전체"
  const AllTypes := "all"
  const DefaultMaxResults := 100

  /** The read-only choices offered for the two count fields (main.py:236-247). */
  const MinViewsChoices: seq<string> := [NoLimit, "1,000", "10,000", "50,000", "100,000", "500,000", "1,000,000"]
  const MaxSubscribersChoices: seq<string> :=
    [NoLimit, "1,000", "10,000", "50,000", "100,000", "500,000", "1,000,000", "10,000,000"]

  // ---------------------------------------------------------------------
  // int(str)

  /** Digits, possibly grouped by single underscores, starting and ending
      with a digit. */
  predicate Numeral(b: string) {
    && |b| > 0 && IsDigit(b[0]) && IsDigit(b[|b| - 1])
    && DigitsOrUnderscores(b)
    && forall k :: 0 <= k < |b| - 1 && b[k] == '_' ==> IsDigit(b[k + 1])
  }

  predicate DigitsOrUnderscores(b: string) {
    forall k :: 0 <= k < |b| ==> IsDigit(b[k]) || b[k] == '_'
  }

  /** The value of a numeral: its digits read in base 10. */
  function NumeralValue(b: string): (n: nat)
    requires Numeral(b)
  {
    UnderscoresDropped(b);
    DigitsValue(RemoveChar(b, '_'))
  }

  /** Python's `int(s)`: None where Python raises ValueError. */
  function ParseInt(s: string): (r: Option<int>)
    ensures AllSpace(s) ==> r.None?
    ensures r.Some? && r.value < 0 ==> Strip(s)[0] == '-'
  {
    ParseTrimmed(Strip(s))
  }

  /** `int` of text without surrounding whitespace. */
  function ParseTrimmed(t: string): (r: Option<int>)
    ensures t == [] ==> r.None?
    ensures r.Some? && r.value < 0 ==> t[0] == '-'
  {
    var signed := |t| > 0 && (t[0] == '-' || t[0] == '+');
    var body := if signed then t[1..] else t;
    if !Numeral(body) then None
    else if signed && t[0] == '-' then Some(-(NumeralValue(body) as int))
    else Some(NumeralValue(body))
  }

  /** A plain digit string is a numeral worth its digits. */
  lemma DigitsNumeral(ds: string)
    requires |ds| > 0 && AllDigits(ds)
    ensures Numeral(ds) && NumeralValue(ds) == DigitsValue(ds)
  {
    RemoveAbsent(ds, '_');
  }

  /** The decimal text of a natural number parses to it. */
  lemma ParseNatRoundTrip(n: nat)
    ensures ParseTrimmed(NatToString(n)) == Some(n)
  {
    var digits := NatToString(n);
    DigitsNumeral(digits);
    DigitsValueOfNatToString(n);
    assert IsDigit(digits[0]);
  }

  /** The decimal text of a negative number parses to it. */
  lemma ParseNegRoundTrip(n: nat)
    requires n > 0
    ensures ParseTrimmed("-" + NatToString(n)) == Some(-(n as int))
  {
    var digits := NatToString(n);
    var s := "-" + digits;
    DigitsNumeral(digits);
    DigitsValueOfNatToString(n);
    assert s[0] == '-' && s[1..] == digits;
  }

  /** Decimal text has no surrounding whitespace. */
  lemma DecimalTrimmed(i: int)
    ensures Strip(IntToString(i)) == IntToString(i)
  {
    var s := IntToString(i);
    assert !IsSpace(s[0]) && !IsSpace(s[|s| - 1]);
    StripTrimmed(s);
  }

  /** `int` reads back what `str` writes: the decimal text of every
      integer parses to that integer. */
  lemma ParseIntRoundTrip(i: int)
    ensures ParseInt(IntToString(i)) == Some(i)
  {
    DecimalTrimmed(i);
    if i < 0 {
      ParseNegRoundTrip(-i);
    } else {
      ParseNatRoundTrip(i);
    }
  }

  /** Surrounding whitespace never changes what `int` reads. */
  lemma ParseIntIgnoresPadding(s: string)
    ensures ParseInt(Strip(s)) == ParseInt(s)
  {
    assert Strip(Strip(s)) == Strip(s) by {
      StripTrimmed(Strip(s));
    }
  }

  // ---------------------------------------------------------------------
  // Comma-grouped counts

  /** The three digits of `d < 1000`, zero-padded. */
  function Pad3(d: nat): (r: string)
    requires d < 1000
    ensures |r| == 3 && AllDigits(r)
  {
    [DigitChar(d / 100), DigitChar(d / 10 % 10), DigitChar(d % 10)]
  }

  /** `f"{n:,}"`: the decimal text of `n` with a comma before each group of
      three digits, the form of every numeric choice. */
  function Grouped(n: nat): (r: string)
    ensures |r| > 0 && IsDigit(r[0])
    ensures forall k :: 0 <= k < |r| ==> IsDigit(r[k]) || r[k] == ','
  {
    if n < 1000 then NatToString(n) else Grouped(n / 1000) + "," + Pad3(n % 1000)
  }

  /** A count field: the no-limit choice, or `int` of the text without its
      commas. */
  function CountField(text: string, noLimit: int): (r: Option<int>)
    ensures text == NoLimit ==> r == Some(noLimit)
    ensures text != NoLimit ==> r == ParseInt(RemoveChar(text, ','))
  {
    if text == NoLimit then Some(noLimit) else ParseInt(RemoveChar(text, ','))
  }

  /** The maximum-subscriber field: no bound for the no-limit choice. */
  function LimitField(text: string): (r: Option<Option<int>>)
    ensures text == NoLimit ==> r == Some(None)
    ensures text != NoLimit ==> (r.Some? <==> ParseInt(RemoveChar(text, ',')).Some?)
    ensures r.Some? && r.value.Some? ==> text != NoLimit && r.value.value == ParseInt(RemoveChar(text, ',')).value
  {
    if text == NoLimit then Some(None)
    else
      match ParseInt(RemoveChar(text, ','))
      case None => None
      case Some(n) => Some(Some(n))
  }

  /** `int(text or 100)`: an empty entry means 100. */
  function MaxResultsField(text: string): (r: Option<int>)
    ensures text == [] ==> r == Some(DefaultMaxResults)
    ensures text != [] ==> r == ParseInt(text)
  {
    if text == [] then Some(DefaultMaxResults) else ParseInt(text)
  }

  /** Every comma-grouped count reads back as its value, in either count
      field. */
  lemma GroupedReadsBack(n: nat)
    ensures CountField(Grouped(n), 0) == Some(n)
    ensures LimitField(Grouped(n)) == Some(Some(n))
  {
    var u := RemoveChar(Grouped(n), ',');
    GroupedUngrouped(n);
    assert Trimmed(u) by {
      assert IsDigit(u[0]) && IsDigit(u[|u| - 1]);
    }
    StripTrimmed(u);
    DigitsNumeral(u);
    assert IsDigit(u[0]);
    assert Grouped(n) != NoLimit by {
      assert IsDigit(Grouped(n)[0]) && !IsDigit(NoLimit[0]);
    }
  }

  lemma SmallNumbers()
    ensures NatToString(1) == "1" && NatToString(5) == "5"
    ensures NatToString(10) == "10" && NatToString(50) == "50"
    ensures NatToString(100) == "100" && NatToString(500) == "500"
    ensures Pad3(0) == "000"
  {
  }

  /** The grouped texts of the offered counts. */
  lemma GroupedTexts()
    ensures Grouped(1000) == "1,000" && Grouped(10000) == "10,000" && Grouped(50000) == "50,000"
    ensures Grouped(100000) == "100,000" && Grouped(500000) == "500,000"
    ensures Grouped(1000000) == "1,000,000" && Grouped(10000000) == "10,000,000"
  {
    SmallNumbers();
    assert Grouped(1) == "1" && Grouped(10) == "10" && Grouped(50) == "50";
    assert Grouped(100) == "100" && Grouped(500) == "500";
  }

  /** The offered choices are the no-limit choice and the grouped texts of
      their values, so each of them is read without error. */
  lemma ChoicesGrouped()
    ensures MinViewsChoices == [NoLimit, Grouped(1000), Grouped(10000), Grouped(50000), Grouped(100000),
                                Grouped(500000), Grouped(1000000)]
    ensures MaxSubscribersChoices == MinViewsChoices + [Grouped(10000000)]
  {
    GroupedTexts();
  }

  // ---------------------------------------------------------------------
  // The whole form

  /** What pressing "search" yields: a warning about the keyword, an error
      about a numeric field, or the arguments of the search. */
  datatype Form =
    | NoKeyword
    | BadNumber
    | Query(keyword: string, criteria: Criteria, period: Option<string>, maxResults: int)

  /** `search_videos` up to the point where the search is started. */
  function ReadForm(keyword: string, videoType: string, minViews: string, maxSubscribers: string,
                    period: string, maxResults: string): (r: Form)
    ensures r.NoKeyword? <==> AllSpace(keyword)
    ensures r.BadNumber? <==> && !AllSpace(keyword)
                              && (|| CountField(minViews, 0).None?
                                  || LimitField(maxSubscribers).None?
                                  || MaxResultsField(maxResults).None?)
    ensures r.Query? ==> && r.keyword == Strip(keyword) && r.keyword != []
                         && Some(r.criteria.minViews) == CountField(minViews, 0)
                         && Some(r.criteria.maxSubscribers) == LimitField(maxSubscribers)
                         && Some(r.maxResults) == MaxResultsField(maxResults)
    ensures r.Query? ==> (r.criteria.videoType == AllTypes <==> videoType == Everything || videoType == AllTypes)
    ensures r.Query? ==> (r.period.None? <==> period == Everything)
    ensures r.Query? && maxSubscribers == NoLimit ==> !HasSubscriberBound(r.criteria)
  {
    var kw := Strip(keyword);
    if kw == [] then NoKeyword
    else
      var views := CountField(minViews, 0);
      var subscribers := LimitField(maxSubscribers);
      var results := MaxResultsField(maxResults);
      if views.None? || subscribers.None? || results.None? then BadNumber
      else
        var vt := if videoType == Everything then AllTypes else videoType;
        var p := if period == Everything then None else Some(period);
        Query(kw, Criteria(vt, views.value, subscribers.value), p, results.value)
  }

  /** Any non-blank keyword with offered count choices and a decimal entry
      for the result count starts a search with exactly those numbers. */
  lemma ChoicesStartSearch(keyword: string, videoType: string, views: nat, subscribers: nat,
                           period: string, results: int)
    requires !AllSpace(keyword)
    ensures var r := ReadForm(keyword, videoType, Grouped(views), Grouped(subscribers), period,
                              IntToString(results));
            r.Query? && r.criteria.minViews == views && r.criteria.maxSubscribers == Some(subscribers)
            && r.maxResults == results
  {
    GroupedReadsBack(views);
    GroupedReadsBack(subscribers);
    ParseIntRoundTrip(results);
  }

  // ---------------------------------------------------------------------
  // Helpers about removing characters

  /** Removing underscores from a numeral leaves a non-empty digit string. */
  lemma {:induction false} UnderscoresDropped(b: string)
    requires DigitsOrUnderscores(b)
    ensures AllDigits(RemoveChar(b, '_'))
  {
    if b != [] {
      assert forall k :: 0 <= k < |b[1..]| ==> b[1..][k] == b[k + 1];
      UnderscoresDropped(b[1..]);
    }
  }

  /** Removing a character that does not occur changes nothing. */
  lemma {:induction false} RemoveAbsent(s: string, c: char)
    requires forall k :: 0 <= k < |s| ==> s[k] != c
    ensures RemoveChar(s, c) == s
  {
    if s != [] {
      assert forall k :: 0 <= k < |s[1..]| ==> s[1..][k] == s[k + 1];
      RemoveAbsent(s[1..], c);
    }
  }

  /** Removal distributes over concatenation. */
  lemma {:induction false} RemoveAppend(a: string, b: string, c: char)
    ensures RemoveChar(a + b, c) == RemoveChar(a, c) + RemoveChar(b, c)
  {
    if a == [] {
      assert a + b == b;
    } else {
      assert (a + b)[0] == a[0];
      assert (a + b)[1..] == a[1..] + b;
      RemoveAppend(a[1..], b, c);
    }
  }

  /** Appending three digits multiplies the value by 1000 and adds them. */
  lemma DigitsValueAppend3(a: string, d: nat)
    requires AllDigits(a) && d < 1000
    ensures AllDigits(a + Pad3(d)) && DigitsValue(a + Pad3(d)) == DigitsValue(a) * 1000 + d
  {
    var p := Pad3(d);
    var s := a + p;
    assert s[..|s| - 1] == a + p[..2];
    assert (a + p[..2])[..|a| + 1] == a + p[..1];
    assert (a + p[..1])[..|a|] == a;
    assert forall k :: 0 <= k < |s| ==> s[k] == if k < |a| then a[k] else p[k - |a|];
    var x, y, z := d / 100, d / 10 % 10, d % 10;
    assert DigitValue(p[0]) == x && DigitValue(p[1]) == y && DigitValue(p[2]) == z;
    assert d == x * 100 + y * 10 + z;
    var v := DigitsValue(a);
    assert DigitsValue(a + p[..1]) == v * 10 + x;
    assert DigitsValue(a + p[..2]) == (v * 10 + x) * 10 + y;
    assert DigitsValue(s) == ((v * 10 + x) * 10 + y) * 10 + z;
  }

  /** Dropping the commas of a grouped count leaves its decimal digits. */
  lemma {:induction false} GroupedUngrouped(n: nat)
    ensures var u := RemoveChar(Grouped(n), ',');
            |u| > 0 && AllDigits(u) && IsDigit(u[0]) && DigitsValue(u) == n
  {
    if n < 1000 {
      RemoveAbsent(NatToString(n), ',');
      DigitsValueOfNatToString(n);
    } else {
      var head := Grouped(n / 1000);
      var p := Pad3(n % 1000);
      GroupedUngrouped(n / 1000);
      assert Grouped(n) == head + ("," + p);
      RemoveAppend(head, "," + p, ',');
      RemoveAbsent(p, ',');
      assert RemoveChar("," + p, ',') == p;
      DigitsValueAppend3(RemoveChar(head, ','), n % 1000);
    }
  }
}

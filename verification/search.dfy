/** The two page loops of the API client: `search_videos`
    (youtube_api.py:80-170), which filters each page's videos, and
    `get_channel_videos` (youtube_api.py:294-348), which keeps them all.

    Both ask for `min(50, max_results - collected)` results per page, stop
    once enough were collected, when a page has no items or when it carries
    no next-page token, then score the whole collection and cut it to
    `max_results`. An exception from a page request aborts the whole call
    with an empty list; a failed details request only empties its page.

    The remote side is a script: the k-th page request is answered by
    `script[k]`. A request past the end of the script is answered by an
    empty page, which ends the loop, so every run is finite.
 */
module Search {
  import opened Wrappers
  import opened Text
  import opened Videos
  import opened Outlier

  /** `config.MAX_RESULTS_PER_REQUEST`. */
  const MaxResultsPerRequest: nat := 50

  /** The part of a search or playlist page the loop reads: the video ids
      (an absent `items` key reads as no items) and the next-page token. */
  datatype Page = Page(items: seq<string>, nextPageToken: Option<string>)

  /** The answer to one page request and to the details request made for
      its ids. */
  datatype Reply = Reply(page: Raisable<Page>, details: Raisable<seq<VideoItem>>)

  /** What the loop sends with a page request: the page size, the token of
      the previous page (None on the first request) and, for a keyword
      search, the `publishedAfter` window in days. */
  datatype Request = Request(maxResults: nat, pageToken: Option<string>, windowDays: Option<nat>)

  /** The result of a call: the videos returned and the page requests made. */
  datatype Outcome = Outcome(videos: seq<Video>, requests: seq<Request>)

  /** Python truthiness of a next-page token. */
  predicate Truthy(token: Option<string>) {
    token.Some? && token.value != ""
  }

  /** The page-size rule: what is still missing, at most 50. */
  function PageSize(maxResults: int, collected: nat): (n: nat)
    requires collected < maxResults
    ensures 1 <= n <= MaxResultsPerRequest && n <= maxResults - collected
    ensures n == MaxResultsPerRequest || n == maxResults - collected
  {
    Min(MaxResultsPerRequest, maxResults - collected)
  }

  /** The upload-period labels and the day windows they stand for; any
      other label, and no label, sets no window. */
  function WindowDays(period: Option<string>): (d: Option<nat>)
    ensures d.Some? ==> d.value in {1, 7, 30, 90, 365}
    ensures d.Some? ==> period.Some?
  {
    match period
    case None => None
    case Some(p) =>
      if p == "1일" then Some(1)
      else if p == "1주일" then Some(7)
      else if p == "1개월" then Some(30)
      else if p == "3개월" then Some(90)
      else if p == "1년" then Some(365)
      else None
  }

  /** Which videos of a page the loop appends: the admitted ones for a
      keyword search, all of them for a channel listing. */
  function Keep(filter: Option<Criteria>, vs: seq<Video>): (r: seq<Video>)
    ensures filter.None? ==> r == vs
    ensures filter.Some? ==> forall j :: 0 <= j < |r| ==> Admits(filter.value, r[j])
  {
    match filter
    case None => vs
    case Some(c) => KeepAdmitted(c, vs)
  }

  /** A page request's answer as the loop sees it: the page, and the videos
      it would append for that page (the details of its ids, enriched with
      subscriber counts and filtered). */
  datatype Answer = Answer(page: Raisable<Page>, videos: seq<Video>)

  /** The answers a script gives a loop with the given filter. A details
      request that raised contributes no videos. */
  function Answers(script: seq<Reply>, filter: Option<Criteria>, channels: Channels): (answers: seq<Answer>)
    ensures |answers| == |script|
    ensures forall i :: 0 <= i < |script| ==> answers[i].page == script[i].page
    ensures forall i :: 0 <= i < |script| ==> script[i].details.Raised? ==> answers[i].videos == []
    ensures forall i :: 0 <= i < |script| ==> answers[i].videos == Keep(filter, Details(script[i].details, channels))
    ensures filter.Some? ==> forall i, j :: 0 <= i < |script| && 0 <= j < |answers[i].videos|
                               ==> Admits(filter.value, answers[i].videos[j])
  {
    seq(|script|, i requires 0 <= i < |script| =>
      Answer(script[i].page, Keep(filter, Details(script[i].details, channels))))
  }

  /** The videos of pages i to j - 1, in page order. */
  function Pages(answers: seq<Answer>, i: nat, j: nat): seq<Video>
    requires i <= j <= |answers|
    decreases j - i
  {
    if i == j then [] else answers[i].videos + Pages(answers, i + 1, j)
  }

  /** The page loop from the k-th request on, with `acc` collected so far
      and `token` the token to send. Raised means a page request raised.
      What it adds to `acc` is a prefix of the pages' videos in page order:
      whole pages, never skipping or reordering one. */
  function Collect(answers: seq<Answer>, k: nat, acc: seq<Video>, token: Option<string>,
                   maxResults: int, windowDays: Option<nat>): (r: Raisable<Outcome>)
    ensures r.Ok? ==> |acc| <= |r.value.videos| && r.value.videos[..|acc|] == acc
    requires k <= |answers|
    ensures r.Ok? ==> r.value.videos[|acc|..] <= Pages(answers, k, |answers|)
    decreases |answers| - k
  {
    if |acc| >= maxResults then Ok(Outcome(acc, []))
    else
      var request := Request(PageSize(maxResults, |acc|), token, windowDays);
      if k >= |answers| then Ok(Outcome(acc, [request]))
      else
        match answers[k].page
        case Raised(e) => Raised(e)
        case Ok(page) =>
          var acc' := acc + answers[k].videos;
          if page.items == [] then Ok(Outcome(acc, [request]))
          else if !Truthy(page.nextPageToken) then
            assert acc'[|acc|..] == answers[k].videos;
            Ok(Outcome(acc', [request]))
          else
            match Collect(answers, k + 1, acc', page.nextPageToken, maxResults, windowDays)
            case Raised(e) => Raised(e)
            case Ok(o) =>
              assert o.videos[..|acc|] == o.videos[..|acc'|][..|acc|];
              assert o.videos[|acc|..] == answers[k].videos + o.videos[|acc'|..];
              Ok(Outcome(o.videos, [request] + o.requests))
  }

  /** The requests of a run: one per page asked for, none once enough was
      collected; the first carries the given token and the page-size rule,
      every one asks for 1 to 50 results and carries the run's window, and
      every later one carries the truthy token of the page before. */
  lemma {:induction false} CollectRequests(answers: seq<Answer>, k: nat, acc: seq<Video>, token: Option<string>,
                                           maxResults: int, windowDays: Option<nat>)
    requires k <= |answers|
    requires Collect(answers, k, acc, token, maxResults, windowDays).Ok?
    ensures var rs := Collect(answers, k, acc, token, maxResults, windowDays).value.requests;
            && (|rs| == 0 <==> |acc| >= maxResults)
            && (|acc| < maxResults ==> rs[0] == Request(PageSize(maxResults, |acc|), token, windowDays))
            && (forall j :: 0 <= j < |rs| ==> 1 <= rs[j].maxResults <= MaxResultsPerRequest
                                              && rs[j].windowDays == windowDays)
            && (forall j :: 0 < j < |rs| ==> Truthy(rs[j].pageToken))
    decreases |answers| - k
  {
    if |acc| < maxResults && k < |answers| && answers[k].page.Ok? {
      var page := answers[k].page.value;
      if page.items != [] && Truthy(page.nextPageToken) {
        CollectRequests(answers, k + 1, acc + answers[k].videos, page.nextPageToken, maxResults, windowDays);
      }
    }
  }

  /** Pages whose videos all pass a filter concatenate to videos that all
      pass it. */
  lemma {:induction false} PagesAdmitted(answers: seq<Answer>, c: Criteria, i: nat, j: nat)
    requires i <= j <= |answers|
    requires forall p, q :: i <= p < j && 0 <= q < |answers[p].videos| ==> Admits(c, answers[p].videos[q])
    ensures forall q :: 0 <= q < |Pages(answers, i, j)| ==> Admits(c, Pages(answers, i, j)[q])
    decreases j - i
  {
    if i < j {
      PagesAdmitted(answers, c, i + 1, j);
      var here := answers[i].videos;
      var rest := Pages(answers, i + 1, j);
      forall q | 0 <= q < |here + rest| ensures Admits(c, (here + rest)[q]) {
        if q < |here| {
          assert (here + rest)[q] == here[q];
        } else {
          assert (here + rest)[q] == rest[q - |here|];
        }
      }
    }
  }

  /** The pages a run from request k fetched and appended, given that it
      stopped before request `stop`: each was answered with items, each
      was asked for while the count (`collected` plus the pages before
      it) was still short of `maxResults`, and each but the last carried a
      next-page token. */
  predicate Fetched(answers: seq<Answer>, k: nat, stop: nat, collected: nat, maxResults: int) {
    && k <= stop <= |answers|
    && (forall i :: k <= i < stop ==> answers[i].page.Ok? && answers[i].page.value.items != [])
    && (forall i :: k <= i < stop ==> collected + |Pages(answers, k, i)| < maxResults)
    && (forall i :: k <= i < stop - 1 ==> Truthy(answers[i].page.value.nextPageToken))
  }

  /** Why a run stopped before request `stop`: enough was collected, the
      script ran out, the last page fetched had no next-page token, or the
      page at `stop` was answered without items. */
  predicate Ends(answers: seq<Answer>, k: nat, stop: nat, collected: nat, maxResults: int)
    requires k <= stop <= |answers|
  {
    || collected + |Pages(answers, k, stop)| >= maxResults
    || stop == |answers|
    || (stop > k && answers[stop - 1].page.Ok? && !Truthy(answers[stop - 1].page.value.nextPageToken))
    || (answers[stop].page.Ok? && answers[stop].page.value.items == [])
  }

  /** A run that does not raise returns what it was given followed by the
      videos of the pages it fetched, whole and in page order, and it
      fetches exactly up to the first page where a stop condition holds
      (no earlier index meets the conditions of `Fetched` and `Ends`
      together). */
  lemma {:induction false} CollectPages(answers: seq<Answer>, k: nat, acc: seq<Video>, token: Option<string>,
                                        maxResults: int, windowDays: Option<nat>)
    requires k <= |answers|
    requires Collect(answers, k, acc, token, maxResults, windowDays).Ok?
    ensures exists stop :: && Fetched(answers, k, stop, |acc|, maxResults)
                           && Ends(answers, k, stop, |acc|, maxResults)
                           && Collect(answers, k, acc, token, maxResults, windowDays).value.videos
                              == acc + Pages(answers, k, stop)
    decreases |answers| - k
  {
    var videos := Collect(answers, k, acc, token, maxResults, windowDays).value.videos;
    if |acc| >= maxResults || k == |answers| || answers[k].page.value.items == [] {
      assert videos == acc;
      StopAtOnce(answers, k, |acc|, maxResults);
      assert acc + Pages(answers, k, k) == acc;
    } else if !Truthy(answers[k].page.value.nextPageToken) {
      assert videos == acc + answers[k].videos;
      StopAfterOne(answers, k, |acc|, maxResults);
      assert Pages(answers, k, k + 1) == answers[k].videos + [];
    } else {
      var token' := answers[k].page.value.nextPageToken;
      var acc' := acc + answers[k].videos;
      assert videos == Collect(answers, k + 1, acc', token', maxResults, windowDays).value.videos;
      CollectPages(answers, k + 1, acc', token', maxResults, windowDays);
      var stop :| && Fetched(answers, k + 1, stop, |acc'|, maxResults)
                  && Ends(answers, k + 1, stop, |acc'|, maxResults)
                  && videos == acc' + Pages(answers, k + 1, stop);
      StepFetched(answers, k, stop, |acc|, maxResults);
      assert Pages(answers, k, stop) == answers[k].videos + Pages(answers, k + 1, stop);
      assert videos == acc + Pages(answers, k, stop);
    }
  }

  /** A run that stops before its first request fetches nothing. */
  lemma StopAtOnce(answers: seq<Answer>, k: nat, collected: nat, maxResults: int)
    requires k <= |answers|
    requires collected >= maxResults || k == |answers| || (answers[k].page.Ok? && answers[k].page.value.items == [])
    ensures Fetched(answers, k, k, collected, maxResults) && Ends(answers, k, k, collected, maxResults)
  {
  }

  /** A run whose first page has items but no token fetches that page only. */
  lemma StopAfterOne(answers: seq<Answer>, k: nat, collected: nat, maxResults: int)
    requires k < |answers| && collected < maxResults
    requires answers[k].page.Ok? && answers[k].page.value.items != []
    requires !Truthy(answers[k].page.value.nextPageToken)
    ensures Fetched(answers, k, k + 1, collected, maxResults) && Ends(answers, k, k + 1, collected, maxResults)
  {
    assert Pages(answers, k, k) == [];
  }

  /** One fetched page with a token in front of a run extends it. */
  lemma StepFetched(answers: seq<Answer>, k: nat, stop: nat, collected: nat, maxResults: int)
    requires k < |answers| && answers[k].page.Ok? && answers[k].page.value.items != []
    requires Truthy(answers[k].page.value.nextPageToken) && collected < maxResults
    requires Fetched(answers, k + 1, stop, collected + |answers[k].videos|, maxResults)
    requires Ends(answers, k + 1, stop, collected + |answers[k].videos|, maxResults)
    ensures Fetched(answers, k, stop, collected, maxResults) && Ends(answers, k, stop, collected, maxResults)
  {
    var n := collected + |answers[k].videos|;
    forall i | k < i <= stop ensures collected + |Pages(answers, k, i)| == n + |Pages(answers, k + 1, i)| {
      assert Pages(answers, k, i) == answers[k].videos + Pages(answers, k + 1, i);
    }
    assert Pages(answers, k, k) == [];
  }

  /** `search_videos(...)` against a scripted API: the returned videos and
      the page requests made. The keyword is sent unchanged with every
      request and is not tracked. The whole collection is scored before it
      is cut to `max_results`. */
  function SearchVideos(criteria: Criteria, period: Option<string>, maxResults: int,
                        script: seq<Reply>, channels: Channels, sqrt: real -> real): (o: Outcome)
    ensures |o.videos| <= if maxResults < 0 then 0 else maxResults
    ensures forall j :: 0 <= j < |o.videos| ==> Admits(criteria, o.videos[j])
    ensures forall j :: 0 <= j < |o.videos| ==> o.videos[j].outlierScore.Some?
    ensures Collect(Answers(script, Some(criteria), channels), 0, [], None, maxResults, WindowDays(period)).Raised?
            ==> o == Outcome([], [])
  {
    var answers := Answers(script, Some(criteria), channels);
    match Collect(answers, 0, [], None, maxResults, WindowDays(period))
    case Raised(_) => Outcome([], [])
    case Ok(c) =>
      CollectedAdmitted(answers, criteria, maxResults, WindowDays(period));
      var r := Take(Score(c.videos, sqrt), maxResults);
      ScoredAdmitted(criteria, c.videos, sqrt, r);
      Outcome(r, c.requests)
  }

  /** A keyword search that does not raise returns the admitted videos of
      the pages its loop fetched, in page order, scored together and cut to
      `max_results`. */
  lemma SearchReturnsPages(criteria: Criteria, period: Option<string>, maxResults: int,
                           script: seq<Reply>, channels: Channels, sqrt: real -> real)
    requires Collect(Answers(script, Some(criteria), channels), 0, [], None, maxResults, WindowDays(period)).Ok?
    ensures var answers := Answers(script, Some(criteria), channels);
            exists stop :: && Fetched(answers, 0, stop, 0, maxResults)
                           && Ends(answers, 0, stop, 0, maxResults)
                           && SearchVideos(criteria, period, maxResults, script, channels, sqrt).videos
                              == Take(Score(Pages(answers, 0, stop), sqrt), maxResults)
  {
    var answers := Answers(script, Some(criteria), channels);
    CollectPages(answers, 0, [], None, maxResults, WindowDays(period));
    var stop :| && Fetched(answers, 0, stop, 0, maxResults)
                && Ends(answers, 0, stop, 0, maxResults)
                && Collect(answers, 0, [], None, maxResults, WindowDays(period)).value.videos
                   == [] + Pages(answers, 0, stop);
    assert [] + Pages(answers, 0, stop) == Pages(answers, 0, stop);
  }

  /** What a keyword search collects passes its filter. */
  lemma CollectedAdmitted(answers: seq<Answer>, c: Criteria, maxResults: int, windowDays: Option<nat>)
    requires forall i, j :: 0 <= i < |answers| && 0 <= j < |answers[i].videos| ==> Admits(c, answers[i].videos[j])
    ensures var r := Collect(answers, 0, [], None, maxResults, windowDays);
            r.Ok? ==> forall j :: 0 <= j < |r.value.videos| ==> Admits(c, r.value.videos[j])
  {
    var r := Collect(answers, 0, [], None, maxResults, windowDays);
    if r.Ok? {
      PagesAdmitted(answers, c, 0, |answers|);
      assert r.value.videos == r.value.videos[0..];
    }
  }

  /** Scoring changes no field the filter reads, and cutting keeps a
      prefix, so both keep every video admitted. */
  lemma ScoredAdmitted(c: Criteria, vs: seq<Video>, sqrt: real -> real, r: seq<Video>)
    requires forall j :: 0 <= j < |vs| ==> Admits(c, vs[j])
    requires r <= Score(vs, sqrt)
    ensures forall j :: 0 <= j < |r| ==> Admits(c, r[j]) && r[j].outlierScore.Some?
  {
    var scored := Score(vs, sqrt);
    forall j | 0 <= j < |r| ensures Admits(c, r[j]) && r[j].outlierScore.Some? {
      assert r[j] == scored[j];
      assert Admits(c, vs[j]);
    }
  }

  /** The part of `get_channel_videos` after the channel lookup:
      `channelFound` is whether the lookup returned an item (Raised when it
      raised). The same loop runs with no filter and no upload window. */
  function ChannelVideos(channelFound: Raisable<bool>, maxResults: int,
                         script: seq<Reply>, channels: Channels, sqrt: real -> real): (o: Outcome)
    ensures |o.videos| <= if maxResults < 0 then 0 else maxResults
    ensures channelFound != Ok(true) ==> o == Outcome([], [])
    ensures Collect(Answers(script, None, channels), 0, [], None, maxResults, None).Raised? ==> o == Outcome([], [])
  {
    if channelFound != Ok(true) then Outcome([], [])
    else
      match Collect(Answers(script, None, channels), 0, [], None, maxResults, None)
      case Raised(_) => Outcome([], [])
      case Ok(c) => Outcome(Take(Score(c.videos, sqrt), maxResults), c.requests)
  }

  /** A channel listing whose loop does not raise returns every video of
      the pages it fetched, in page order, scored together and cut to
      `max_results`. */
  lemma ChannelReturnsPages(maxResults: int, script: seq<Reply>, channels: Channels, sqrt: real -> real)
    requires Collect(Answers(script, None, channels), 0, [], None, maxResults, None).Ok?
    ensures var answers := Answers(script, None, channels);
            exists stop :: && Fetched(answers, 0, stop, 0, maxResults)
                           && Ends(answers, 0, stop, 0, maxResults)
                           && ChannelVideos(Ok(true), maxResults, script, channels, sqrt).videos
                              == Take(Score(Pages(answers, 0, stop), sqrt), maxResults)
  {
    var answers := Answers(script, None, channels);
    CollectPages(answers, 0, [], None, maxResults, None);
    var stop :| && Fetched(answers, 0, stop, 0, maxResults)
                && Ends(answers, 0, stop, 0, maxResults)
                && Collect(answers, 0, [], None, maxResults, None).value.videos == [] + Pages(answers, 0, stop);
    assert [] + Pages(answers, 0, stop) == Pages(answers, 0, stop);
  }

  /** A page whose details request raised adds nothing but does not stop
      the loop: the run goes on to the next page as if the page had had no
      videos. */
  lemma FailedDetailsSkipPage(script: seq<Reply>, filter: Option<Criteria>, channels: Channels,
                              k: nat, acc: seq<Video>, token: Option<string>,
                              maxResults: int, windowDays: Option<nat>)
    requires k < |script| && |acc| < maxResults
    requires script[k].page.Ok? && script[k].page.value.items != []
    requires Truthy(script[k].page.value.nextPageToken)
    requires script[k].details.Raised?
    ensures var answers := Answers(script, filter, channels);
            var here := Collect(answers, k, acc, token, maxResults, windowDays);
            var next := Collect(answers, k + 1, acc, script[k].page.value.nextPageToken, maxResults, windowDays);
            here.Ok? == next.Ok? && (next.Ok? ==> here.value.videos == next.value.videos)
  {
    var answers := Answers(script, filter, channels);
    assert acc + answers[k].videos == acc;
  }

  /** The loop gets from request k to request `bad` without stopping: every
      page in between is answered, non-empty, carries a token, and leaves
      the collection short of `maxResults`. */
  predicate Reaches(answers: seq<Answer>, k: nat, bad: nat, collected: nat, maxResults: int)
    requires k <= bad < |answers|
    decreases bad - k
  {
    k == bad ||
    (&& answers[k].page.Ok?
     && answers[k].page.value.items != []
     && Truthy(answers[k].page.value.nextPageToken)
     && collected + |answers[k].videos| < maxResults
     && Reaches(answers, k + 1, bad, collected + |answers[k].videos|, maxResults))
  }

  /** A page request that raises, once the loop reaches it, makes the whole
      run raise, whatever was collected before. */
  lemma {:induction false} RaisedPageAborts(answers: seq<Answer>, k: nat, acc: seq<Video>, token: Option<string>,
                                            maxResults: int, windowDays: Option<nat>, bad: nat)
    requires k <= bad < |answers| && answers[bad].page.Raised?
    requires |acc| < maxResults
    requires Reaches(answers, k, bad, |acc|, maxResults)
    ensures Collect(answers, k, acc, token, maxResults, windowDays).Raised?
    decreases bad - k
  {
    if k < bad {
      RaisedPageAborts(answers, k + 1, acc + answers[k].videos, answers[k].page.value.nextPageToken,
                       maxResults, windowDays, bad);
    }
  }

  /** The first request of a search has no token, the keyword's window and
      a page size of min(50, max_results). */
  lemma FirstRequest(criteria: Criteria, period: Option<string>, maxResults: int,
                     script: seq<Reply>, channels: Channels, sqrt: real -> real)
    requires maxResults > 0
    requires Collect(Answers(script, Some(criteria), channels), 0, [], None, maxResults, WindowDays(period)).Ok?
    ensures var o := SearchVideos(criteria, period, maxResults, script, channels, sqrt);
            |o.requests| > 0 && o.requests[0] == Request(Min(MaxResultsPerRequest, maxResults), None, WindowDays(period))
  {
    CollectRequests(Answers(script, Some(criteria), channels), 0, [], None, maxResults, WindowDays(period));
  }

  /** With nothing to collect (`max_results <= 0`) no request is made. */
  lemma NothingRequested(criteria: Criteria, period: Option<string>, maxResults: int,
                         script: seq<Reply>, channels: Channels, sqrt: real -> real)
    requires maxResults <= 0
    ensures SearchVideos(criteria, period, maxResults, script, channels, sqrt) == Outcome([], [])
  {
  }

  /** A channel listing returns the first `max_results` videos of the first
      page, scored, when that page alone supplies enough of them. */
  lemma ChannelFirstPage(maxResults: int, script: seq<Reply>, channels: Channels, sqrt: real -> real)
    requires maxResults > 0 && script != []
    requires script[0].page.Ok? && script[0].page.value.items != []
    requires |Details(script[0].details, channels)| >= maxResults
    ensures var o := ChannelVideos(Ok(true), maxResults, script, channels, sqrt);
            |o.videos| == maxResults
            && forall j :: 0 <= j < maxResults ==>
                 o.videos[j] == Details(script[0].details, channels)[j].(outlierScore := o.videos[j].outlierScore)
  {
    var answers := Answers(script, None, channels);
    var ds := Details(script[0].details, channels);
    assert answers[0].videos == ds;
    assert [] + ds == ds;
    if Truthy(script[0].page.value.nextPageToken) {
      assert Collect(answers, 1, ds, script[0].page.value.nextPageToken, maxResults, None) == Ok(Outcome(ds, []));
    }
    assert Collect(answers, 0, [], None, maxResults, None).value.videos == ds;
  }
}

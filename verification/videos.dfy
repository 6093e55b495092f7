/** The video record the API client builds (`_get_videos_detail`,
    youtube_api.py:172-209), the subscriber lookup behind it
    (`_get_channel_info`, youtube_api.py:211-229) and the filter every
    search result must pass (`_filter_video`, youtube_api.py:243-264).

    The Data API is an oracle: a details response is a Raisable list of raw
    items, and channel lookups are a map from channel id to a Raisable list
    of the `subscriberCount` fields of the returned items (None where the
    field is absent). A channel id missing from the map stands for a lookup
    that raised.
 */
module Videos {
  import opened Wrappers
  import opened Text
  import opened Duration

  /** `config.SHORTS_MAX_DURATION`: the longest a short may run, in seconds. */
  const ShortsMaxDuration: nat := 60
  /** The duration threshold of the "over 20 minutes" video type. */
  const LongMinDuration: nat := 1200

  const TypeShorts: string := "쇼츠"
  const TypeLongForm: string := "롱폼"
  const TypeOver20: string := "20분 초과"

  const WatchUrlPrefix: string := "https://www.youtube.com/watch?v="

  /** One item of a `videos().list` response, as far as the client reads it.
      Absent statistics are None (`.get(..., 0)` reads them as 0). */
  datatype VideoItem = VideoItem(
    id: string,
    title: string,
    channelId: string,
    channelTitle: string,
    publishedAt: string,
    viewCount: Option<int>,
    likeCount: Option<int>,
    commentCount: Option<int>,
    duration: string,
    thumbnailHigh: Option<string>,
    description: Option<string>)

  /** The record the client hands to its callers. `outlierScore` is None
      until scoring adds the key. */
  datatype Video = Video(
    videoId: string,
    title: string,
    channelId: string,
    channelTitle: string,
    publishedAt: string,
    viewCount: int,
    likeCount: int,
    commentCount: int,
    duration: string,
    durationSeconds: nat,
    subscriberCount: int,
    thumbnailUrl: string,
    description: string,
    url: string,
    outlierScore: Option<real>)

  /** Channel lookups: channel id to the lookup outcome. */
  type Channels = map<string, Raisable<seq<Option<int>>>>

  /** `_get_channel_info(channel_id)['subscriber_count']`: the first item's
      count; 0 when there is no item, no count, or the lookup raised. */
  function SubscriberCount(channels: Channels, channelId: string): (n: int)
    ensures channelId !in channels || channels[channelId].Raised? ==> n == 0
    ensures channelId in channels && channels[channelId].Ok? && channels[channelId].value != []
            ==> n == channels[channelId].value[0].GetOr(0)
    ensures channelId in channels && channels[channelId] == Ok([]) ==> n == 0
  {
    if channelId !in channels then 0
    else
      match channels[channelId]
      case Raised(_) => 0
      case Ok(items) => if items == [] then 0 else items[0].GetOr(0)
  }

  /** The record built from one raw item. */
  function FromItem(item: VideoItem, channels: Channels): (v: Video)
    ensures v.videoId == item.id && v.url == WatchUrlPrefix + item.id
    ensures v.durationSeconds == ParseDuration(item.duration)
    ensures v.viewCount == item.viewCount.GetOr(0)
    ensures v.subscriberCount == SubscriberCount(channels, item.channelId)
    ensures v.outlierScore.None?
  {
    Video(item.id, item.title, item.channelId, item.channelTitle, item.publishedAt,
          item.viewCount.GetOr(0), item.likeCount.GetOr(0), item.commentCount.GetOr(0),
          item.duration, ParseDuration(item.duration),
          SubscriberCount(channels, item.channelId),
          item.thumbnailHigh.GetOr(""), item.description.GetOr(""),
          WatchUrlPrefix + item.id, None)
  }

  /** `_get_videos_detail(ids)`: one record per returned item, in response
      order; an exception anywhere yields the empty list. */
  function Details(response: Raisable<seq<VideoItem>>, channels: Channels): (vs: seq<Video>)
    ensures response.Raised? ==> vs == []
    ensures response.Ok? ==> |vs| == |response.value|
    ensures response.Ok? ==> forall k :: 0 <= k < |vs| ==> vs[k] == FromItem(response.value[k], channels)
  {
    match response
    case Raised(_) => []
    case Ok(items) => seq(|items|, k requires 0 <= k < |items| => FromItem(items[k], channels))
  }

  /** The search criteria `_filter_video` receives. `maxSubscribers` is
      None for Python's None. */
  datatype Criteria = Criteria(videoType: string, minViews: int, maxSubscribers: Option<int>)

  /** Python truthiness of `max_subscribers`: None and 0 impose no bound. */
  predicate HasSubscriberBound(c: Criteria) {
    c.maxSubscribers.Some? && c.maxSubscribers.value != 0
  }

  /** The duration bound a video type imposes; other types impose none. */
  predicate LengthFits(videoType: string, seconds: nat) {
    && (videoType == TypeShorts ==> seconds <= ShortsMaxDuration)
    && (videoType == TypeLongForm ==> seconds > ShortsMaxDuration)
    && (videoType == TypeOver20 ==> seconds > LongMinDuration)
  }

  /** `_filter_video(video, video_type, min_views, max_subscribers)`, with the
      source's early returns. It admits a video exactly when the view floor,
      the subscriber bound (if any) and the type's duration bound all hold. */
  function Admits(c: Criteria, v: Video): (ok: bool)
    ensures ok <==> && v.viewCount >= c.minViews
                    && (HasSubscriberBound(c) ==> v.subscriberCount <= c.maxSubscribers.value)
                    && LengthFits(c.videoType, v.durationSeconds)
  {
    if v.viewCount < c.minViews then false
    else if c.maxSubscribers.Some? && c.maxSubscribers.value != 0
            && v.subscriberCount > c.maxSubscribers.value then false
    else if c.videoType == TypeShorts && v.durationSeconds > ShortsMaxDuration then false
    else if c.videoType == TypeLongForm && v.durationSeconds <= ShortsMaxDuration then false
    else if c.videoType == TypeOver20 && v.durationSeconds <= LongMinDuration then false
    else true
  }

  /** The videos of a list that pass the filter, in order. */
  function KeepAdmitted(c: Criteria, vs: seq<Video>): (r: seq<Video>)
    ensures |r| <= |vs|
    ensures forall k :: 0 <= k < |r| ==> Admits(c, r[k])
    ensures forall v :: v in r <==> v in vs && Admits(c, v)
    ensures FilterOf(r, vs, v => Admits(c, v))
  {
    if vs == [] then []
    else
      var rest := KeepAdmitted(c, vs[1..]);
      assert forall v :: v in vs <==> v == vs[0] || v in vs[1..];
      FilterCons(vs, rest, v => Admits(c, v));
      if Admits(c, vs[0]) then [vs[0]] + rest else rest
  }

  /** Splitting the list splits the kept videos the same way: the loop may
      filter page by page. */
  lemma {:induction false} KeepAdmittedAppend(c: Criteria, a: seq<Video>, b: seq<Video>)
    ensures KeepAdmitted(c, a + b) == KeepAdmitted(c, a) + KeepAdmitted(c, b)
  {
    if a != [] {
      assert (a + b)[1..] == a[1..] + b;
      KeepAdmittedAppend(c, a[1..], b);
    } else {
      assert a + b == b;
    }
  }

  /** The three video types are mutually exclusive in what they admit:
      no video is both a short and long-form, and every video over 20
      minutes is long-form. */
  lemma TypesAgree(seconds: nat)
    ensures !(LengthFits(TypeShorts, seconds) && LengthFits(TypeLongForm, seconds))
    ensures LengthFits(TypeOver20, seconds) ==> LengthFits(TypeLongForm, seconds)
    ensures LengthFits(TypeShorts, seconds) || LengthFits(TypeLongForm, seconds)
  {
    assert TypeShorts != TypeLongForm && TypeShorts != TypeOver20 && TypeLongForm != TypeOver20 by {
      assert TypeShorts[0] != TypeLongForm[0] && TypeShorts[0] != TypeOver20[0];
      assert TypeLongForm[0] != TypeOver20[0];
    }
  }

  /** A zero bound is no bound: criteria with `max_subscribers` 0 admit
      exactly what criteria with None admit. */
  lemma ZeroBoundIsNoBound(videoType: string, minViews: int, v: Video)
    ensures Admits(Criteria(videoType, minViews, Some(0)), v)
            <==> Admits(Criteria(videoType, minViews, None), v)
  {
  }

  /** Whether a raw item's record passes the filter, read off the item
      itself: its view count with 0 for an absent one, its channel's
      subscriber count, and its parsed duration. */
  lemma ItemAdmitted(c: Criteria, item: VideoItem, channels: Channels)
    ensures Admits(c, FromItem(item, channels))
            <==> && item.viewCount.GetOr(0) >= c.minViews
                 && (HasSubscriberBound(c) ==> SubscriberCount(channels, item.channelId) <= c.maxSubscribers.value)
                 && LengthFits(c.videoType, ParseDuration(item.duration))
  {
  }

  /** A channel whose lookup failed reports 0 subscribers, so its videos
      pass any non-negative subscriber bound. */
  lemma FailedLookupPassesBound(c: Criteria, item: VideoItem, channels: Channels)
    requires item.channelId !in channels || channels[item.channelId].Raised?
    requires HasSubscriberBound(c) ==> c.maxSubscribers.value >= 0
    ensures HasSubscriberBound(c) ==> FromItem(item, channels).subscriberCount <= c.maxSubscribers.value
  {
  }
}

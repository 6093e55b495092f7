/** The two URL-to-video-id helpers: `extract_video_id_from_url`
    (transcript_extractor.py:18-29), which answers None on a miss, and
    `extract_video_id` (quick_transcript_extractor.py:139-151), which falls
    back to the stripped input.

    Both run the same two regular expressions with `re.search`:

      1. `(?:youtube\.com/watch\?v=|youtu\.be/|youtube\.com/embed/)([^&\n?#]+)`
      2. `youtube\.com/watch\?.*v=([^&\n?#]+)`

    Their matching is written out below: `re.search` tries start positions
    from the left; at a position the alternatives are tried in order; the
    greedy `.*` backtracks from the end of the line; the final
    `[^&\n?#]+` is greedy and needs at least one character.
 */
module VideoId {
  import opened Wrappers
  import opened Text

  const WatchPrefix: string := "youtube.com/watch?v="
  const ShortPrefix: string := "youtu.be/"
  const EmbedPrefix: string := "youtube.com/embed/"
  /** The literal start of the second pattern. */
  const QueryPrefix: string := "youtube.com/watch?"

  /** The characters `[^&\n?#]` admits. */
  predicate IdChar(c: char) {
    c != '&' && c != '\n' && c != '?' && c != '#'
  }

  predicate AllIdChars(s: string) {
    forall k :: 0 <= k < |s| ==> IdChar(s[k])
  }

  /** Whether the input looks like a URL to the two callers. */
  predicate MentionsYoutube(s: string) {
    Contains(s, "youtube.com") || Contains(s, "youtu.be")
  }

  /** The length of the maximal run of id characters at the start of `s`. */
  function IdRun(s: string): (n: nat)
    ensures n <= |s| && AllIdChars(s[..n])
    ensures n == |s| || !IdChar(s[n])
  {
    if s != [] && IdChar(s[0]) then
      var m := IdRun(s[1..]);
      assert s[..1 + m] == [s[0]] + s[1..][..m];
      1 + m
    else 0
  }

  /** What the greedy `([^&\n?#]+)` captures at position `j`. */
  function Group(s: string, j: nat): (r: Option<string>)
    requires j <= |s|
    ensures r.Some? ==> r.value != [] && AllIdChars(r.value)
    ensures r.Some? ==> j + |r.value| <= |s| && s[j..j + |r.value|] == r.value
    ensures r.Some? ==> j + |r.value| == |s| || !IdChar(s[j + |r.value|])
    ensures r.None? <==> j == |s| || !IdChar(s[j])
  {
    var n := IdRun(s[j..]);
    assert s[j..][..n] == s[j..j + n];
    if n == 0 then None else Some(s[j..j + n])
  }

  /** The capture after literal `prefix` at position `i`, if `prefix` is
      there. */
  function After(s: string, i: nat, prefix: string): (r: Option<string>)
    requires i <= |s|
    ensures r.Some? ==> StartsWith(s[i..], prefix)
  {
    if StartsWith(s[i..], prefix) then Group(s, i + |prefix|) else None
  }

  /** The first alternative of pattern 1 that matches at `i`. */
  function Or(a: Option<string>, b: Option<string>): Option<string> {
    if a.Some? then a else b
  }

  /** Pattern 1 anchored at position `i`. */
  function FirstAt(s: string, i: nat): Option<string>
    requires i <= |s|
  {
    Or(After(s, i, WatchPrefix), Or(After(s, i, ShortPrefix), After(s, i, EmbedPrefix)))
  }

  /** `re.search` of pattern 1 from position `i` on. */
  function SearchFirst(s: string, i: nat): (r: Option<string>)
    requires i <= |s|
    ensures r.Some? ==> r.value != [] && AllIdChars(r.value)
    decreases |s| - i
  {
    var here := FirstAt(s, i);
    if here.Some? then here
    else if i == |s| then None
    else SearchFirst(s, i + 1)
  }

  /** Where the line that contains position `j` ends. */
  function LineEnd(s: string, j: nat): (e: nat)
    requires j <= |s|
    ensures j <= e <= |s|
    ensures forall k :: j <= k < e ==> s[k] != '\n'
    ensures e == |s| || s[e] == '\n'
    decreases |s| - j
  {
    if j == |s| || s[j] == '\n' then j else LineEnd(s, j + 1)
  }

  /** `v=([^&\n?#]+)` at `k`. */
  function ValueAt(s: string, k: nat): (r: Option<string>)
    requires k <= |s|
    ensures r.Some? ==> k + 2 <= |s| && s[k] == 'v' && s[k + 1] == '='
  {
    if k + 2 <= |s| && s[k] == 'v' && s[k + 1] == '=' then Group(s, k + 2) else None
  }

  /** The greedy `.*v=` backtracking: the last position `k`, from `hi`
      down to `lo`, where `v=` and a capture follow. */
  function LastValue(s: string, lo: nat, k: nat): (r: Option<string>)
    requires lo <= k <= |s|
    ensures r.Some? ==> r.value != [] && AllIdChars(r.value)
    decreases k
  {
    var here := ValueAt(s, k);
    if here.Some? then here
    else if k == lo then None
    else LastValue(s, lo, k - 1)
  }

  /** Pattern 2 anchored at position `i`. */
  function SecondAt(s: string, i: nat): (r: Option<string>)
    requires i <= |s|
    ensures r.Some? ==> r.value != [] && AllIdChars(r.value)
  {
    if StartsWith(s[i..], QueryPrefix) then
      var lo := i + |QueryPrefix|;
      LastValue(s, lo, LineEnd(s, lo))
    else None
  }

  /** `re.search` of pattern 2 from position `i` on. */
  function SearchSecond(s: string, i: nat): (r: Option<string>)
    requires i <= |s|
    ensures r.Some? ==> r.value != [] && AllIdChars(r.value)
    decreases |s| - i
  {
    var here := SecondAt(s, i);
    if here.Some? then here
    else if i == |s| then None
    else SearchSecond(s, i + 1)
  }

  /** `extract_video_id_from_url(url)`: pattern 1's capture, else pattern
      2's, else None. An id found is non-empty and holds none of `&`, `?`,
      `#` or a line break. */
  function FromUrl(url: string): (r: Option<string>)
    ensures r.Some? ==> r.value != [] && AllIdChars(r.value)
  {
    Or(SearchFirst(url, 0), SearchSecond(url, 0))
  }

  /** `extract_video_id(url_or_id)`: never None; the capture when the input
      mentions YouTube and a pattern matches, otherwise the stripped input. */
  function QuickId(s: string): (r: string)
    ensures MentionsYoutube(s) && FromUrl(s).Some? ==> r == FromUrl(s).value
    ensures !MentionsYoutube(s) || FromUrl(s).None? ==> r == Strip(s)
  {
    if MentionsYoutube(s) && FromUrl(s).Some? then FromUrl(s).value else Strip(s)
  }

  // ---------------------------------------------------------------------
  // Properties

  /** Search skips every position where nothing matches. */
  lemma {:induction false} SearchFirstSkips(s: string, i: nat, p: nat)
    requires i <= p <= |s|
    requires forall q :: i <= q < p ==> FirstAt(s, q).None?
    ensures SearchFirst(s, i) == SearchFirst(s, p)
    decreases p - i
  {
    if i < p {
      SearchFirstSkips(s, i + 1, p);
    }
  }

  /** An input with `prefix` at `i` contains every prefix of `prefix`. */
  lemma PrefixContains(s: string, i: nat, prefix: string, sub: string)
    requires i <= |s| && StartsWith(s[i..], prefix) && StartsWith(prefix, sub)
    ensures Contains(s, sub)
  {
    assert s[i..i + |sub|] == s[i..][..|prefix|][..|sub|];
    ContainsAt(s, sub, i);
  }

  /** A match of pattern 1 implies the input mentions YouTube. */
  lemma FirstAtMentions(s: string, i: nat)
    requires i <= |s| && FirstAt(s, i).Some?
    ensures MentionsYoutube(s)
  {
    if After(s, i, WatchPrefix).Some? {
      assert WatchPrefix[..11] == "youtube.com";
      PrefixContains(s, i, WatchPrefix, "youtube.com");
    } else if After(s, i, ShortPrefix).Some? {
      assert ShortPrefix[..8] == "youtu.be";
      PrefixContains(s, i, ShortPrefix, "youtu.be");
    } else {
      assert After(s, i, EmbedPrefix).Some?;
      assert EmbedPrefix[..11] == "youtube.com";
      PrefixContains(s, i, EmbedPrefix, "youtube.com");
    }
  }

  lemma {:induction false} SearchFirstMentions(s: string, i: nat)
    requires i <= |s| && SearchFirst(s, i).Some?
    ensures MentionsYoutube(s)
    decreases |s| - i
  {
    if FirstAt(s, i).Some? {
      FirstAtMentions(s, i);
    } else {
      SearchFirstMentions(s, i + 1);
    }
  }

  lemma {:induction false} SearchSecondMentions(s: string, i: nat)
    requires i <= |s| && SearchSecond(s, i).Some?
    ensures MentionsYoutube(s)
    decreases |s| - i
  {
    if SecondAt(s, i).Some? {
      var t := s[i..];
      assert s[i..i + 11] == t[..11] == "youtube.com";
      ContainsAt(s, "youtube.com", i);
    } else {
      SearchSecondMentions(s, i + 1);
    }
  }

  /** Every id either pattern finds comes from an input that mentions
      YouTube, so the quick helper's mention test never hides a match: it
      is the strict helper with the stripped input as the fallback. */
  lemma QuickIdIsFromUrlOrStrip(s: string)
    ensures QuickId(s) == FromUrl(s).GetOr(Strip(s))
  {
    if SearchFirst(s, 0).Some? {
      SearchFirstMentions(s, 0);
    } else if SearchSecond(s, 0).Some? {
      SearchSecondMentions(s, 0);
    }
  }

  /** A position whose character is not `y` starts no match of pattern 1. */
  lemma NoMatchWithoutY(s: string, i: nat)
    requires i < |s| && s[i] != 'y'
    ensures FirstAt(s, i).None?
  {
    assert WatchPrefix[0] == 'y' && ShortPrefix[0] == 'y' && EmbedPrefix[0] == 'y';
  }

  /** A run of id characters followed by a non-id character (or the end)
      is captured exactly. */
  lemma {:induction false} IdRunOf(id: string, rest: string)
    requires AllIdChars(id)
    requires rest == [] || !IdChar(rest[0])
    ensures IdRun(id + rest) == |id|
  {
    if id != [] {
      assert (id + rest)[1..] == id[1..] + rest;
      IdRunOf(id[1..], rest);
    } else {
      assert id + rest == rest;
    }
  }

  /** The capture after `before` in `before + id + rest`. */
  lemma GroupOf(before: string, id: string, rest: string)
    requires id != [] && AllIdChars(id)
    requires rest == [] || !IdChar(rest[0])
    ensures Group(before + id + rest, |before|) == Some(id)
  {
    var s := before + id + rest;
    assert s[|before|..] == id + rest;
    IdRunOf(id, rest);
    assert s[|before|..|before| + |id|] == id;
  }

  /** Search passes over a lead-in without any `y`. */
  lemma SkipLeadIn(pre: string, tail: string)
    requires forall q :: 0 <= q < |pre| ==> pre[q] != 'y'
    ensures SearchFirst(pre + tail, 0) == SearchFirst(pre + tail, |pre|)
  {
    var s := pre + tail;
    forall q | 0 <= q < |pre|
      ensures FirstAt(s, q).None?
    {
      assert s[q] == pre[q];
      NoMatchWithoutY(s, q);
    }
    SearchFirstSkips(s, 0, |pre|);
  }

  /** An alternative of pattern 1 followed by an id matches there. */
  lemma FirstAtPrefix(s: string, i: nat, prefix: string, id: string, rest: string)
    requires prefix == WatchPrefix || prefix == ShortPrefix || prefix == EmbedPrefix
    requires id != [] && AllIdChars(id)
    requires rest == [] || !IdChar(rest[0])
    requires i <= |s| && s == s[..i] + prefix + id + rest
    ensures FirstAt(s, i) == Some(id)
  {
    assert s[i..] == prefix + id + rest;
    assert StartsWith(s[i..], prefix);
    GroupOf(s[..i] + prefix, id, rest);
    OnlyAlternative(s[i..], prefix);
  }

  /** The three alternatives exclude each other: text that starts with one
      starts with no earlier one. */
  lemma OnlyAlternative(t: string, prefix: string)
    requires prefix == WatchPrefix || prefix == ShortPrefix || prefix == EmbedPrefix
    requires StartsWith(t, prefix)
    ensures prefix != WatchPrefix ==> !StartsWith(t, WatchPrefix)
    ensures prefix == EmbedPrefix ==> !StartsWith(t, ShortPrefix)
  {
    if prefix == ShortPrefix {
      assert t[5] == '.' != WatchPrefix[5];
    } else if prefix == EmbedPrefix {
      assert t[12] == 'e' != WatchPrefix[12];
      assert t[5] == 'b' != ShortPrefix[5];
    }
  }

  /** After a lead-in without `y`, an alternative of pattern 1 followed by
      an id is found. */
  lemma FoundAfterLeadIn(pre: string, prefix: string, id: string, rest: string)
    requires forall q :: 0 <= q < |pre| ==> pre[q] != 'y'
    requires prefix == WatchPrefix || prefix == ShortPrefix || prefix == EmbedPrefix
    requires id != [] && AllIdChars(id)
    requires rest == [] || !IdChar(rest[0])
    ensures FromUrl(pre + prefix + id + rest) == Some(id)
  {
    var s := pre + prefix + id + rest;
    var tail := prefix + id + rest;
    assert s == pre + tail;
    SkipLeadIn(pre, tail);
    assert s[..|pre|] == pre;
    FirstAtPrefix(s, |pre|, prefix, id, rest);
  }

  const WatchUrl: string := "https://www." + WatchPrefix
  const ShortUrl: string := "https://" + ShortPrefix
  const EmbedUrl: string := "https://www." + EmbedPrefix

  /** The id of a standard watch URL, whatever query parameters follow. */
  lemma WatchUrlId(id: string, rest: string)
    requires id != [] && AllIdChars(id)
    requires rest == [] || !IdChar(rest[0])
    ensures FromUrl(WatchUrl + id + rest) == Some(id)
  {
    FoundAfterLeadIn("https://www.", WatchPrefix, id, rest);
  }

  /** The id of a short link. */
  lemma ShortUrlId(id: string, rest: string)
    requires id != [] && AllIdChars(id)
    requires rest == [] || !IdChar(rest[0])
    ensures FromUrl(ShortUrl + id + rest) == Some(id)
  {
    FoundAfterLeadIn("https://", ShortPrefix, id, rest);
  }

  /** The id of an embed link. */
  lemma EmbedUrlId(id: string, rest: string)
    requires id != [] && AllIdChars(id)
    requires rest == [] || !IdChar(rest[0])
    ensures FromUrl(EmbedUrl + id + rest) == Some(id)
  {
    FoundAfterLeadIn("https://www.", EmbedPrefix, id, rest);
  }

  /** Pattern 2's backtracking settles on the last `v=` of the line: when
      no later position can start `v=`, the value at `k` is the one taken. */
  lemma {:induction false} LastValueIsLast(s: string, lo: nat, hi: nat, k: nat)
    requires lo <= k <= hi <= |s|
    requires ValueAt(s, k).Some?
    requires forall q :: k < q <= hi ==> ValueAt(s, q).None?
    ensures LastValue(s, lo, hi) == ValueAt(s, k)
    decreases hi
  {
    if hi > k {
      LastValueIsLast(s, lo, hi - 1, k);
    }
  }

  /** Pattern 1 finds nothing exactly when it matches at no position from
      `i` on, the end of the input included. */
  lemma {:induction false} SearchFirstNone(s: string, i: nat)
    requires i <= |s|
    ensures SearchFirst(s, i).None? <==> forall q :: i <= q <= |s| ==> FirstAt(s, q).None?
    decreases |s| - i
  {
    if i < |s| {
      SearchFirstNone(s, i + 1);
    }
  }

  /** Pattern 2 finds nothing exactly when it matches at no position from
      `i` on. */
  lemma {:induction false} SearchSecondNone(s: string, i: nat)
    requires i <= |s|
    ensures SearchSecond(s, i).None? <==> forall q :: i <= q <= |s| ==> SecondAt(s, q).None?
    decreases |s| - i
  {
    if i < |s| {
      SearchSecondNone(s, i + 1);
    }
  }

  /** The strict helper answers None exactly when neither pattern matches
      anywhere in the input. */
  lemma FromUrlNone(url: string)
    ensures FromUrl(url).None? <==> && (forall q :: 0 <= q <= |url| ==> FirstAt(url, q).None?)
                                    && (forall q :: 0 <= q <= |url| ==> SecondAt(url, q).None?)
  {
    SearchFirstNone(url, 0);
    SearchSecondNone(url, 0);
  }

  /** An input that mentions neither `youtube.com` nor `youtu.be` yields no
      id. */
  lemma NoMentionNoId(url: string)
    requires !MentionsYoutube(url)
    ensures FromUrl(url).None?
  {
    if SearchFirst(url, 0).Some? {
      SearchFirstMentions(url, 0);
    }
    if SearchSecond(url, 0).Some? {
      SearchSecondMentions(url, 0);
    }
  }

  /** Search for pattern 2 skips every position where it does not match. */
  lemma {:induction false} SearchSecondSkips(s: string, i: nat, p: nat)
    requires i <= p <= |s|
    requires forall q :: i <= q < p ==> SecondAt(s, q).None?
    ensures SearchSecond(s, i) == SearchSecond(s, p)
    decreases p - i
  {
    if i < p {
      SearchSecondSkips(s, i + 1, p);
    }
  }

  /** Every alternative of pattern 1 starts with `youtu`. */
  lemma FirstAtStartsYoutu(s: string, q: nat)
    requires q <= |s| && FirstAt(s, q).Some?
    ensures q + 5 <= |s| && s[q..q + 5] == "youtu"
  {
    var t := s[q..];
    if After(s, q, WatchPrefix).Some? {
      assert t[..5] == t[..|WatchPrefix|][..5];
    } else if After(s, q, ShortPrefix).Some? {
      assert t[..5] == t[..|ShortPrefix|][..5];
    } else {
      assert After(s, q, EmbedPrefix).Some?;
      assert t[..5] == t[..|EmbedPrefix|][..5];
    }
    assert s[q..q + 5] == t[..5];
  }

  /** In `pre + QueryPrefix + tail`, pattern 1 matches nowhere when `pre`
      has no `y`, `tail` does not start with `v` and holds no `youtu`. */
  lemma FirstNoneInQuery(pre: string, tail: string)
    requires forall q :: 0 <= q < |pre| ==> pre[q] != 'y'
    requires tail != [] && tail[0] != 'v'
    requires !Contains(tail, "youtu")
    ensures var s := pre + QueryPrefix + tail;
            forall q :: 0 <= q <= |s| ==> FirstAt(s, q).None?
  {
    var s := pre + QueryPrefix + tail;
    forall q | 0 <= q <= |s| ensures FirstAt(s, q).None? {
      FirstNoneAt(s, pre, tail, q);
    }
  }

  lemma FirstNoneAt(s: string, pre: string, tail: string, q: nat)
    requires s == pre + QueryPrefix + tail && q <= |s|
    requires forall q :: 0 <= q < |pre| ==> pre[q] != 'y'
    requires tail != [] && tail[0] != 'v'
    requires !Contains(tail, "youtu")
    ensures FirstAt(s, q).None?
  {
    var lo := |pre| + |QueryPrefix|;
    if q < |pre| {
      assert s[q] == pre[q];
      NoMatchWithoutY(s, q);
    } else if q == |pre| {
      assert s[q..] == QueryPrefix + tail;
      QueryNotFirst(s, q, tail);
    } else if q < lo {
      assert s[q] == QueryPrefix[q - |pre|];
      NoMatchWithoutY(s, q);
    } else {
      assert s[lo..] == tail;
      FirstNoneInTail(s, lo, tail, q);
    }
  }

  /** No match of pattern 1 starts inside a tail without `youtu`. */
  lemma FirstNoneInTail(s: string, lo: nat, tail: string, q: nat)
    requires lo <= q <= |s| && s[lo..] == tail && !Contains(tail, "youtu")
    ensures FirstAt(s, q).None?
  {
    if FirstAt(s, q).Some? {
      FirstAtStartsYoutu(s, q);
      assert tail[q - lo..q - lo + 5] == s[q..q + 5];
      ContainsAt(tail, "youtu", q - lo);
      assert false;
    }
  }

  /** Pattern 1 does not match where `QueryPrefix` is followed by anything
      but `v`. */
  lemma QueryNotFirst(s: string, q: nat, tail: string)
    requires q <= |s| && s[q..] == QueryPrefix + tail
    requires tail != [] && tail[0] != 'v'
    ensures FirstAt(s, q).None?
  {
    var t := s[q..];
    assert t[18] == tail[0] != WatchPrefix[18];
    assert t[5] == 'b' != ShortPrefix[5];
    assert t[12] == 'w' != EmbedPrefix[12];
  }

  /** A line without breaks from `j` to the end ends at the end. */
  lemma {:induction false} LineEndAtEnd(s: string, j: nat)
    requires j <= |s| && forall k :: j <= k < |s| ==> s[k] != '\n'
    ensures LineEnd(s, j) == |s|
    decreases |s| - j
  {
    if j < |s| {
      LineEndAtEnd(s, j + 1);
    }
  }

  /** After the last `v=` of an input ending in an id without `v=`, no
      position starts a value. */
  lemma NoLaterValue(s: string, k: nat, id: string)
    requires k + 2 + |id| == |s| && s[k + 2..] == id && !Contains(id, "v=")
    requires s[k + 1] == '='
    ensures forall q :: k < q <= |s| ==> ValueAt(s, q).None?
  {
    forall q | k < q <= |s| ensures ValueAt(s, q).None? {
      if q >= k + 2 && q + 2 <= |s| && s[q] == 'v' && s[q + 1] == '=' {
        assert id[q - k - 2..q - k] == s[q..q + 2] == "v=";
        ContainsAt(id, "v=", q - k - 2);
        assert false;
      }
    }
  }

  /** Pattern 2 matched where `QueryPrefix` starts: the capture after the
      last `v=` of the line. */
  lemma SecondAtQuery(s: string, i: nat, tail: string, params: string, id: string)
    requires i <= |s| && s[i..] == QueryPrefix + tail && tail == params + "v=" + id
    requires forall q :: 0 <= q < |params| ==> params[q] != '\n'
    requires id != [] && AllIdChars(id) && !Contains(id, "v=")
    ensures SecondAt(s, i) == Some(id)
  {
    var lo := i + |QueryPrefix|;
    var k := lo + |params|;
    assert StartsWith(s[i..], QueryPrefix);
    forall j | lo <= j < |s| ensures s[j] != '\n' {
      assert s[j] == tail[j - lo];
    }
    LineEndAtEnd(s, lo);
    assert s == s[..k + 2] + id + [];
    GroupOf(s[..k + 2], id, []);
    assert ValueAt(s, k) == Some(id);
    NoLaterValue(s, k, id);
    LastValueIsLast(s, lo, |s|, k);
  }

  /** A watch URL whose `v` parameter is not the first: pattern 1 fails at
      `watch?` and pattern 2 takes the value of the last `v=`. */
  lemma QueryUrlId(pre: string, tail: string, params: string, id: string)
    requires forall q :: 0 <= q < |pre| ==> pre[q] != 'y'
    requires tail == params + "v=" + id
    requires params != [] && params[0] != 'v'
    requires forall q :: 0 <= q < |params| ==> params[q] != '\n'
    requires id != [] && AllIdChars(id) && !Contains(id, "v=")
    requires !Contains(tail, "youtu")
    ensures FromUrl(pre + QueryPrefix + tail) == Some(id)
  {
    var s := pre + QueryPrefix + tail;
    assert tail[0] == params[0];
    QueryFirstNone(s, pre, tail);
    SecondFindsQuery(s, pre, tail, params, id);
    FromUrlSecond(s, id);
  }

  lemma QueryFirstNone(s: string, pre: string, tail: string)
    requires s == pre + QueryPrefix + tail
    requires forall q :: 0 <= q < |pre| ==> pre[q] != 'y'
    requires tail != [] && tail[0] != 'v'
    requires !Contains(tail, "youtu")
    ensures SearchFirst(s, 0).None?
  {
    FirstNoneInQuery(pre, tail);
    SearchFirstNone(s, 0);
  }

  /** Pattern 2 decides when pattern 1 finds nothing. */
  lemma FromUrlSecond(s: string, id: string)
    requires SearchFirst(s, 0).None? && SearchSecond(s, 0) == Some(id)
    ensures FromUrl(s) == Some(id)
  {
  }

  lemma SecondFindsQuery(s: string, pre: string, tail: string, params: string, id: string)
    requires s == pre + QueryPrefix + tail && tail == params + "v=" + id
    requires forall q :: 0 <= q < |pre| ==> pre[q] != 'y'
    requires forall q :: 0 <= q < |params| ==> params[q] != '\n'
    requires id != [] && AllIdChars(id) && !Contains(id, "v=")
    ensures SearchSecond(s, 0) == Some(id)
  {
    assert s[..|pre|] == pre;
    SecondSkipsLeadIn(s, pre);
    assert s[|pre|..] == QueryPrefix + tail;
    SecondAtQuery(s, |pre|, tail, params, id);
  }

  /** Search for pattern 2 passes over a lead-in without any `y`. */
  lemma SecondSkipsLeadIn(s: string, pre: string)
    requires |pre| <= |s| && s[..|pre|] == pre
    requires forall q :: 0 <= q < |pre| ==> pre[q] != 'y'
    ensures SearchSecond(s, 0) == SearchSecond(s, |pre|)
  {
    forall q | 0 <= q < |pre| ensures SecondAt(s, q).None? {
      assert s[q] == pre[q];
      assert QueryPrefix[0] == 'y';
    }
    SearchSecondSkips(s, 0, |pre|);
  }
}

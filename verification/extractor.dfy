/** The caption-only extractor `TranscriptOnlyExtractor`
    (transcript_extractor.py): `get_transcript` (31-96),
    `get_multiple_transcripts` (98-125) and `save_transcript` (127-152).

    The transcript library is the oracle of the Captions module: each video
    id maps to its listing outcome, and a listing maps languages to tracks
    for `find_transcript` and `find_generated_transcript`. The library's
    `TextFormatter.format_transcript` is a parameter that may raise.
 */
module Extractor {
  import opened Wrappers
  import opened Text
  import opened Captions
  import opened VideoId

  /** The default `languages` argument. */
  const DefaultLanguages: seq<string> := ["ko", "en"]

  type Formatter = seq<Fragment> -> Raisable<string>

  /** The id `get_transcript` looks up: the URL's id when the input mentions
      YouTube (None when no pattern matches), otherwise the input itself,
      unstripped. */
  function ResolveId(input: string): (id: Option<string>)
    ensures !MentionsYoutube(input) ==> id == Some(input)
    ensures MentionsYoutube(input) ==> id == FromUrl(input)
  {
    if MentionsYoutube(input) then FromUrl(input) else Some(input)
  }

  /** One attempt: the track for `lang`, fetched and formatted, kept when
      its stripped text is non-empty. A failing lookup, fetch or format is
      skipped. */
  function Attempt(lookups: map<string, Track>, lang: string, format: Formatter): (r: Option<string>)
    ensures r.Some? ==> r.value != [] && Trimmed(r.value)
  {
    if lang !in lookups then None
    else
      match lookups[lang].fetched
      case Raised(_) => None
      case Ok(fs) =>
        match format(fs)
        case Raised(_) => None
        case Ok(text) =>
          var t := Strip(text);
          if t == [] then None else Some(t)
  }

  function Attempts(lookups: map<string, Track>, langs: seq<string>, format: Formatter): (rs: seq<Option<string>>)
    ensures |rs| == |langs|
    ensures forall i :: 0 <= i < |langs| ==> rs[i] == Attempt(lookups, langs[i], format)
  {
    seq(|langs|, i requires 0 <= i < |langs| => Attempt(lookups, langs[i], format))
  }

  /** The first successful attempt in language order. */
  function FirstAttempt(lookups: map<string, Track>, langs: seq<string>, format: Formatter): (r: Option<string>)
    ensures r.Some? ==> r.value != [] && Trimmed(r.value)
    ensures r.None? <==> forall i :: 0 <= i < |langs| ==> Attempt(lookups, langs[i], format).None?
  {
    var rs := Attempts(lookups, langs, format);
    var r := FirstSome(rs);
    assert r.Some? ==> exists i :: 0 <= i < |rs| && rs[i] == r;
    r
  }

  /** `get_transcript(video_id_or_url, languages)`: the stripped text of
      the first track found by `find_transcript` in language order, then of
      the first found by `find_generated_transcript`; None otherwise. */
  function GetTranscript(input: string, languages: seq<string>,
                         captions: map<string, Raisable<Listing>>, format: Formatter): (r: Option<string>)
    ensures r.Some? ==> r.value != [] && Trimmed(r.value)
    ensures r.Some? ==> ResolveId(input).Some?
  {
    var id := ResolveId(input);
    if id.None? || id.value !in captions || captions[id.value].Raised? then None
    else
      var l := captions[id.value].value;
      var found := FirstAttempt(l.find, languages, format);
      if found.Some? then found else FirstAttempt(l.generated, languages, format)
  }

  /** The listing `get_transcript` reads for an input, when it gets one. */
  function ListingOf(input: string, captions: map<string, Raisable<Listing>>): Option<Listing> {
    var id := ResolveId(input);
    if id.None? || id.value !in captions || captions[id.value].Raised? then None
    else Some(captions[id.value].value)
  }

  /** A track `find_transcript` yields text for wins over every generated
      track: the result is the first language's text in the first pass. */
  lemma FoundTrackWins(input: string, languages: seq<string>,
                       captions: map<string, Raisable<Listing>>, format: Formatter, i: nat)
    requires ListingOf(input, captions).Some?
    requires i < |languages|
    requires Attempt(ListingOf(input, captions).value.find, languages[i], format).Some?
    requires forall j :: 0 <= j < i ==> Attempt(ListingOf(input, captions).value.find, languages[j], format).None?
    ensures GetTranscript(input, languages, captions, format)
            == Attempt(ListingOf(input, captions).value.find, languages[i], format)
  {
    var l := ListingOf(input, captions).value;
    FirstSomeIsFirst(Attempts(l.find, languages, format), i);
  }

  /** Generated tracks are consulted only when no found track yields text. */
  lemma GeneratedFallback(input: string, languages: seq<string>,
                          captions: map<string, Raisable<Listing>>, format: Formatter)
    requires ListingOf(input, captions).Some?
    requires forall j :: 0 <= j < |languages| ==> Attempt(ListingOf(input, captions).value.find, languages[j], format).None?
    ensures GetTranscript(input, languages, captions, format)
            == FirstAttempt(ListingOf(input, captions).value.generated, languages, format)
  {
  }

  /** An input that mentions YouTube but has no recognisable id gives None
      without any lookup. */
  lemma UnresolvedUrlGivesNone(input: string, languages: seq<string>,
                               captions: map<string, Raisable<Listing>>, format: Formatter)
    requires MentionsYoutube(input) && FromUrl(input).None?
    ensures GetTranscript(input, languages, captions, format).None?
    ensures ListingOf(input, captions).None?
  {
  }

  // ---------------------------------------------------------------------
  // Several videos

  /** The key `get_multiple_transcripts` stores a transcript under: the
      extracted id when the input contains `youtube.com`, the input itself
      otherwise. */
  function KeyOf(video: string): Option<string> {
    if Contains(video, "youtube.com") then FromUrl(video) else Some(video)
  }

  /** Whenever a transcript was found, its key exists: an input containing
      `youtube.com` that yields a transcript had an id extracted. */
  lemma KeyDefined(video: string, languages: seq<string>,
                   captions: map<string, Raisable<Listing>>, format: Formatter)
    requires GetTranscript(video, languages, captions, format).Some?
    ensures KeyOf(video).Some?
    ensures KeyOf(video) == ResolveId(video) || !Contains(video, "youtube.com")
  {
  }

  /** The transcript of every video, with the default languages. */
  function Found(videos: seq<string>, captions: map<string, Raisable<Listing>>, format: Formatter): (ts: seq<Option<string>>)
    ensures |ts| == |videos|
    ensures forall i :: 0 <= i < |videos| ==> ts[i] == GetTranscript(videos[i], DefaultLanguages, captions, format)
  {
    seq(|videos|, i requires 0 <= i < |videos| => GetTranscript(videos[i], DefaultLanguages, captions, format))
  }

  /** The key of every video under a keying rule. */
  function Keys(videos: seq<string>, key: string -> Option<string>): (ks: seq<Option<string>>)
    ensures |ks| == |videos|
    ensures forall i :: 0 <= i < |videos| ==> ks[i] == key(videos[i])
  {
    seq(|videos|, i requires 0 <= i < |videos| => key(videos[i]))
  }

  /** Every position with a value has a key. */
  predicate Keyed(found: seq<Option<string>>, keys: seq<Option<string>>) {
    |found| == |keys| && forall i :: 0 <= i < |found| && found[i].Some? ==> keys[i].Some?
  }

  /** Position `i` is the last one that stores a value under `key`. */
  predicate LastFor(found: seq<Option<string>>, keys: seq<Option<string>>, key: string, i: nat)
    requires |found| == |keys|
  {
    && i < |found| && found[i].Some? && keys[i] == Some(key)
    && forall j :: i < j < |found| ==> !(found[j].Some? && keys[j] == Some(key))
  }

  /** The map built by storing found values under their keys, in order. */
  function Stored(found: seq<Option<string>>, keys: seq<Option<string>>): map<string, string>
    requires Keyed(found, keys)
  {
    if found == [] then map[]
    else
      var n := |found| - 1;
      var m := Stored(found[..n], keys[..n]);
      if found[n].Some? then m[keys[n].value := found[n].value] else m
  }

  /** A key is stored exactly when some position with a value has it, and
      it holds the value of the last such position. */
  lemma {:induction false} StoredLast(found: seq<Option<string>>, keys: seq<Option<string>>, key: string)
    requires Keyed(found, keys)
    ensures key in Stored(found, keys) <==> exists i :: 0 <= i < |found| && found[i].Some? && keys[i] == Some(key)
    ensures key in Stored(found, keys) ==>
              exists i: nat :: LastFor(found, keys, key, i) && found[i] == Some(Stored(found, keys)[key])
  {
    if found != [] {
      var n := |found| - 1;
      var f, k := found[..n], keys[..n];
      StoredLast(f, k, key);
      if found[n].Some? && keys[n] == Some(key) {
        assert LastFor(found, keys, key, n);
      } else if key in Stored(f, k) {
        var i: nat :| LastFor(f, k, key, i) && f[i] == Some(Stored(f, k)[key]);
        assert LastFor(found, keys, key, i);
      } else {
        assert forall i :: 0 <= i < n ==> found[i] == f[i] && keys[i] == k[i];
      }
    }
  }

  /** At most one entry per position. */
  lemma {:induction false} StoredSize(found: seq<Option<string>>, keys: seq<Option<string>>)
    requires Keyed(found, keys)
    ensures |Stored(found, keys).Keys| <= |found|
  {
    if found != [] {
      var n := |found| - 1;
      StoredSize(found[..n], keys[..n]);
      var m := Stored(found[..n], keys[..n]);
      if found[n].Some? {
        assert m[keys[n].value := found[n].value].Keys == m.Keys + {keys[n].value};
      }
    }
  }

  /** The storing loop of `get_multiple_transcripts`. */
  method StoreAll(found: seq<Option<string>>, keys: seq<Option<string>>) returns (results: map<string, string>)
    requires Keyed(found, keys)
    ensures forall key :: key in results <==>
              exists i :: 0 <= i < |found| && found[i].Some? && keys[i] == Some(key)
    ensures forall key :: key in results ==>
              exists i: nat :: LastFor(found, keys, key, i) && found[i] == Some(results[key])
    ensures |results.Keys| <= |found|
  {
    results := map[];
    for n := 0 to |found|
      invariant results == Stored(found[..n], keys[..n])
    {
      if found[n].Some? {
        results := results[keys[n].value := found[n].value];
      }
      assert found[..n + 1][..n] == found[..n] && keys[..n + 1][..n] == keys[..n];
    }
    assert found[..|found|] == found && keys[..|keys|] == keys;
    forall key
      ensures key in results <==> exists i :: 0 <= i < |found| && found[i].Some? && keys[i] == Some(key)
      ensures key in results ==> exists i: nat :: LastFor(found, keys, key, i) && found[i] == Some(results[key])
    {
      StoredLast(found, keys, key);
    }
    StoredSize(found, keys);
  }

  /** `get_multiple_transcripts(video_list)` with the default languages,
      keyed by video id as documented (IdKey; the source's own key is
      KeyOf, see ShortLinkKeyedByLink): every video with a transcript is
      stored under its id, a later video overwriting an earlier one with
      the same id, so there is at most one entry per id. */
  method MultipleTranscripts(videos: seq<string>, captions: map<string, Raisable<Listing>>, format: Formatter)
    returns (results: map<string, string>)
    ensures var found := Found(videos, captions, format); var keys := Keys(videos, IdKey);
            && (forall key :: key in results <==>
                  exists i :: 0 <= i < |videos| && found[i].Some? && keys[i] == Some(key))
            && (forall key :: key in results ==>
                  exists i: nat :: LastFor(found, keys, key, i) && found[i] == Some(results[key]))
    ensures |results.Keys| <= |videos|
  {
    FoundKeyed(videos, captions, format);
    results := StoreAll(Found(videos, captions, format), Keys(videos, IdKey));
  }

  /** Under both keying rules every found transcript has a key, so the
      storing loop applies to the source's rule as well as to the
      documented one. */
  lemma FoundKeyed(videos: seq<string>, captions: map<string, Raisable<Listing>>, format: Formatter)
    ensures Keyed(Found(videos, captions, format), Keys(videos, KeyOf))
    ensures Keyed(Found(videos, captions, format), Keys(videos, IdKey))
  {
    var found := Found(videos, captions, format);
    forall i | 0 <= i < |videos| && found[i].Some?
      ensures KeyOf(videos[i]).Some? && IdKey(videos[i]).Some?
    {
      KeyDefined(videos[i], DefaultLanguages, captions, format);
      IdKeyIsVideoId(videos[i], DefaultLanguages, captions, format);
    }
  }

  /** As written, a short link is stored under the whole link rather than
      under its video id. */
  lemma ShortLinkKeyedByLink(id: string)
    requires id != [] && AllIdChars(id)
    ensures ResolveId(ShortUrl + id) == Some(id)
    ensures !Contains(ShortUrl + id, "youtube.com") ==> KeyOf(ShortUrl + id) == Some(ShortUrl + id) != Some(id)
  {
    assert ShortUrl + id == ShortUrl + id + [];
    ShortUrlId(id, []);
    assert Contains(ShortUrl + id, "youtu.be") by {
      ContainsInfix("https://", "youtu.be", "/" + id);
      assert "https://" + "youtu.be" + ("/" + id) == ShortUrl + id;
    }
  }

  /** The key the documentation promises (`{video_id: transcript}`): the
      id `get_transcript` resolved, for every input form it accepts. */
  function IdKey(video: string): Option<string> {
    ResolveId(video)
  }

  /** The corrected key is the looked-up id, agrees with the written key on
      every `youtube.com` input and on plain ids, and is the id for short
      links too. */
  lemma IdKeyIsVideoId(video: string, languages: seq<string>,
                       captions: map<string, Raisable<Listing>>, format: Formatter)
    requires GetTranscript(video, languages, captions, format).Some?
    ensures IdKey(video).Some? && IdKey(video).value in captions
    ensures Contains(video, "youtube.com") || !MentionsYoutube(video) ==> IdKey(video) == KeyOf(video)
  {
  }

  // ---------------------------------------------------------------------
  // Saving

  /** What `save_transcript` did: its result and the text it tried to
      write, if it tried. */
  datatype Saved = Saved(ok: bool, written: Option<string>)

  /** `save_transcript(...)`, given the transcript found and how the write
      goes. */
  function SaveTranscript(transcript: Option<string>, write: Raisable<bool>): (s: Saved)
    ensures transcript.None? ==> !s.ok && s.written.None?
    ensures s.ok <==> transcript.Some? && transcript.value != [] && write.Ok?
    ensures s.written.Some? ==> transcript == s.written
  {
    if transcript.Some? && transcript.value != [] then
      Saved(write.Ok?, transcript)
    else Saved(false, None)
  }
}

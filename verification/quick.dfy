/** The stand-alone quick extractor (quick_transcript_extractor.py):
    `get_transcript` (153-190) and `start_extraction` (192-260). Video ids
    come from `extract_video_id`, modelled as VideoId.QuickId.

    The transcript library is the oracle of the Captions module, given per
    video id as a function. The file system is the set of existing paths
    and a predicate telling which paths can be written. The worker thread,
    the log widget and the half-second pause are left out.
 */
module Quick {
  import opened Wrappers
  import opened Text
  import opened Captions
  import opened VideoId
  import opened Naming
  import Extractor
  import opened Batch

  const MsgNoCaption: string := "사용 가능한 자막 없음"
  const MsgErrorPrefix: string := "오류: "
  const ManualSuffix: string := " 자막"
  const GeneratedSuffix: string := " 자동생성 자막"

  /** The languages tried, in order, in both passes. */
  const Languages: seq<string> := ["ko", "en"]

  /** A fragment `' '.join(item.get('text', '') ...)` accepts: a dict whose
      `text` is a string or absent. Anything else raises. */
  predicate Joinable(f: Fragment) {
    f.DictFragment? && (f.text.None? || f.text.value.Str?)
  }

  function DictText(f: Fragment): string
    requires Joinable(f)
  {
    if f.text.None? then "" else f.text.value.s
  }

  /** The fragments' texts joined with single spaces; None when the join
      raises. */
  function QuickText(fs: seq<Fragment>): (r: Option<string>)
    ensures r.Some? <==> forall i :: 0 <= i < |fs| ==> Joinable(fs[i])
    ensures |fs| == 1 && r.Some? ==> r.value == DictText(fs[0])
  {
    if forall i :: 0 <= i < |fs| ==> Joinable(fs[i]) then
      Some(Join(seq(|fs|, i requires 0 <= i < |fs| => DictText(fs[i])), " "))
    else None
  }

  /** The join as a formatter that may raise. */
  function QuickFormat(fs: seq<Fragment>): Raisable<string> {
    match QuickText(fs)
    case Some(t) => Ok(t)
    case None => Raised("")
  }

  /** What `get_transcript` returns: the text (None on failure) and the
      label of where it came from, or of why there is none. */
  datatype Fetched = Fetched(text: Option<string>, source: string)

  /** `get_transcript(video_id)`: Korean then English from
      `find_transcript`, then Korean then English from
      `find_generated_transcript`; a failed listing reports its error. */
  function GetQuickTranscript(listing: Raisable<Listing>): (r: Fetched)
    ensures r.text.Some? ==> r.text.value != [] && Trimmed(r.text.value)
    ensures r.text.Some? ==> listing.Ok?
    ensures listing.Raised? ==> r == Fetched(None, MsgErrorPrefix + listing.message)
    ensures r.text.None? && listing.Ok? ==> r.source == MsgNoCaption
  {
    match listing
    case Raised(e) => Fetched(None, MsgErrorPrefix + e)
    case Ok(l) =>
      var ko := Extractor.Attempt(l.find, "ko", QuickFormat);
      var en := Extractor.Attempt(l.find, "en", QuickFormat);
      var koAuto := Extractor.Attempt(l.generated, "ko", QuickFormat);
      var enAuto := Extractor.Attempt(l.generated, "en", QuickFormat);
      if ko.Some? then Fetched(ko, "ko" + ManualSuffix)
      else if en.Some? then Fetched(en, "en" + ManualSuffix)
      else if koAuto.Some? then Fetched(koAuto, "ko" + GeneratedSuffix)
      else if enAuto.Some? then Fetched(enAuto, "en" + GeneratedSuffix)
      else Fetched(None, MsgNoCaption)
  }

  /** The quick extractor chooses the same text as the caption-only
      extractor does with the same join as its formatter: the two are the
      same two-pass search over Korean and English. */
  lemma QuickAgreesWithExtractor(id: string, captions: map<string, Raisable<Listing>>)
    requires !MentionsYoutube(id) && id in captions
    ensures GetQuickTranscript(captions[id]).text
            == Extractor.GetTranscript(id, Languages, captions, QuickFormat)
  {
    if captions[id].Ok? {
      var l := captions[id].value;
      KoreanThenEnglish(l.find);
      KoreanThenEnglish(l.generated);
    }
  }

  /** The first attempt over Korean and English is the Korean one when it
      succeeds and the English one otherwise. */
  lemma KoreanThenEnglish(lookups: map<string, Track>)
    ensures Extractor.FirstAttempt(lookups, Languages, QuickFormat)
            == var ko := Extractor.Attempt(lookups, "ko", QuickFormat);
               if ko.Some? then ko else Extractor.Attempt(lookups, "en", QuickFormat)
  {
    var rs := Extractor.Attempts(lookups, Languages, QuickFormat);
    if rs[0].Some? {
      FirstSomeIsFirst(rs, 0);
    } else if rs[1].Some? {
      FirstSomeIsFirst(rs, 1);
    }
  }

  /** The label names the language and whether the track was generated. */
  lemma SourceLabels(listing: Raisable<Listing>)
    requires GetQuickTranscript(listing).text.Some?
    ensures var l := listing.value;
            var s := GetQuickTranscript(listing).source;
            (s == "ko" + ManualSuffix <==> Extractor.Attempt(l.find, "ko", QuickFormat).Some?)
            && (s == "ko" + GeneratedSuffix ==> Extractor.Attempt(l.find, "ko", QuickFormat).None?
                                                 && Extractor.Attempt(l.find, "en", QuickFormat).None?)
  {
    assert ("ko" + ManualSuffix)[0] == 'k' && ("en" + ManualSuffix)[0] == 'e';
    assert |"ko" + ManualSuffix| < |"ko" + GeneratedSuffix|;
    assert ("ko" + GeneratedSuffix)[0] == 'k' && ("en" + GeneratedSuffix)[0] == 'e';
  }

  // ---------------------------------------------------------------------
  // The input box

  /** `[u.strip() for u in text.split('\n') if u.strip()]`. */
  function UrlList(text: string): (urls: seq<string>)
    ensures forall i :: 0 <= i < |urls| ==> urls[i] != [] && Trimmed(urls[i])
    ensures forall i :: 0 <= i < |urls| ==> '\n' !in urls[i]
  {
    var lines := Split(text, '\n');
    var kept := seq(|lines|, i requires 0 <= i < |lines| => var u := Strip(lines[i]); if u == [] then None else Some(u));
    var urls := Present(kept);
    UrlsKept(lines, kept, urls);
    urls
  }

  lemma UrlsKept(lines: seq<string>, kept: seq<Option<string>>, urls: seq<string>)
    requires forall i :: 0 <= i < |lines| ==> '\n' !in lines[i]
    requires |kept| == |lines|
    requires forall i :: 0 <= i < |lines| ==> kept[i] == (var u := Strip(lines[i]); if u == [] then None else Some(u))
    requires forall k :: 0 <= k < |urls| ==> Some(urls[k]) in kept
    ensures forall i :: 0 <= i < |urls| ==> urls[i] != [] && Trimmed(urls[i]) && '\n' !in urls[i]
  {
    forall k | 0 <= k < |urls|
      ensures urls[k] != [] && Trimmed(urls[k]) && '\n' !in urls[k]
    {
      var j :| 0 <= j < |kept| && kept[j] == Some(urls[k]);
      StripWithout(lines[j], '\n');
    }
  }

  /** Stripping keeps a character out. */
  lemma StripWithout(s: string, c: char)
    requires c !in s
    ensures c !in Strip(s)
  {
    var a := LeadingSpaces(s);
    if a < |s| {
      var b := TrailingSpaces(s);
      assert forall k :: 0 <= k < |Strip(s)| ==> Strip(s)[k] == s[a + k];
    }
  }

  /** The third refusal of `start_extraction` cannot happen: once the
      stripped input is non-empty, its first line has text. */
  lemma NonEmptyInputHasUrl(text: string)
    requires Strip(text) != []
    ensures UrlList(Strip(text)) != []
  {
    var s := Strip(text);
    var lines := Split(s, '\n');
    assert !IsSpace(s[0]);
    assert lines[0] != [] && lines[0][0] == s[0];
    assert Strip(lines[0]) != [] by {
      assert !AllSpace(lines[0]);
    }
  }

  // ---------------------------------------------------------------------
  // Extraction

  /** The file a video's transcript goes to before de-duplication. */
  function TargetPath(folder: string, id: string): string {
    JoinPath(folder, "transcript_" + id + ".txt")
  }

  /** What happened to one input line. */
  datatype Item =
    | Saved(path: string, round: nat, text: string, source: string)
    | WriteFailed(path: string, round: nat)
    | Missing(source: string)

  /** Where the files go and what the outside world answers: the
      transcript listing of each video id, and which paths can be opened
      for writing. */
  datatype Env = Env(folder: string, captions: string -> Raisable<Listing>, canWrite: string -> bool)

  /** The relation between one input line and what became of it, given the
      paths taken before it. */
  predicate ItemFor(item: Item, url: string, env: Env, taken: set<string>)
  {
    var id := QuickId(url);
    var f := GetQuickTranscript(env.captions(id));
    match item
    case Missing(source) => f.text.None? && source == f.source
    case Saved(path, round, text, source) =>
      f.text == Some(text) && source == f.source && env.canWrite(path)
      && Chosen(TargetPath(env.folder, id), round, path, taken)
    case WriteFailed(path, round) =>
      f.text.Some? && !env.canWrite(path) && Chosen(TargetPath(env.folder, id), round, path, taken)
  }

  /** One round of the loop. */
  method ExtractOne(url: string, env: Env, taken: set<string>) returns (item: Item)
    ensures ItemFor(item, url, env, taken)
  {
    var id := QuickId(url);
    var f := GetQuickTranscript(env.captions(id));
    if f.text.None? {
      item := Missing(f.source);
    } else {
      var path, round := UniquePath(TargetPath(env.folder, id), taken);
      if env.canWrite(path) {
        item := Saved(path, round, f.text.value, f.source);
      } else {
        item := WriteFailed(path, round);
      }
    }
  }

  /** The file an item wrote. */
  function SavedFile(item: Item): Option<string> {
    if item.Saved? then Some(item.path) else None
  }

  predicate IsSaved(item: Item) {
    item.Saved?
  }

  /** The paths written. */
  function SavedPaths(items: seq<Item>): set<string> {
    Created(items, SavedFile)
  }

  /** The number of items saved. */
  function CountSaved(items: seq<Item>): nat {
    Count(items, IsSaved)
  }

  /** ItemFor as a value, for the loop's bookkeeping. */
  function ItemRelation(env: Env): (Item, string, set<string>) -> bool {
    (item, url, taken) => ItemFor(item, url, env, taken)
  }

  /** The loop over the lines. */
  method ExtractAll(urls: seq<string>, env: Env, existing: set<string>) returns (items: seq<Item>, success: nat)
    ensures AllFor(items, urls, ItemRelation(env), SavedFile, existing)
    ensures success == CountSaved(items)
  {
    items := [];
    var taken := existing;
    success := 0;
    for i := 0 to |urls|
      invariant |items| == i
      invariant taken == existing + SavedPaths(items)
      invariant success == CountSaved(items)
      invariant AllFor(items, urls[..i], ItemRelation(env), SavedFile, existing)
    {
      var item := ExtractOne(urls[i], env, taken);
      assert (items + [item])[..i] == items;
      assert urls[..i + 1][..i] == urls[..i];
      items := items + [item];
      if item.Saved? {
        taken := taken + {item.path};
        success := success + 1;
      }
    }
    assert urls[..|urls|] == urls;
  }

  datatype Extraction =
    | NoFolder
    | NoInput
    | NoValidUrls
    | Extracted(items: seq<Item>, success: nat)

  /** `start_extraction`: refuse without a folder or without input;
      otherwise process every non-blank line, writing each transcript found
      to a fresh file. */
  method StartExtraction(env: Env, input: string, existing: set<string>) returns (e: Extraction)
    ensures e.NoFolder? <==> env.folder == []
    ensures e.NoInput? <==> env.folder != [] && Strip(input) == []
    ensures !e.NoValidUrls?
    ensures e.Extracted? ==>
              var urls := UrlList(Strip(input));
              |e.items| == |urls| && e.success == CountSaved(e.items) <= |urls|
              && forall i :: 0 <= i < |urls| ==>
                   ItemFor(e.items[i], urls[i], env, existing + SavedPaths(e.items[..i]))
  {
    if env.folder == [] {
      return NoFolder;
    }
    var text := Strip(input);
    if text == [] {
      return NoInput;
    }
    var urls := UrlList(text);
    NonEmptyInputHasUrl(input);
    var items, success := ExtractAll(urls, env, existing);
    AllForEach(items, urls, ItemRelation(env), SavedFile, existing);
    e := Extracted(items, success);
  }

  /** No file is overwritten: the saved paths were free beforehand and are
      pairwise different. */
  lemma NothingOverwritten(items: seq<Item>, urls: seq<string>, env: Env, existing: set<string>)
    requires |items| == |urls|
    requires forall i :: 0 <= i < |urls| ==> ItemFor(items[i], urls[i], env, existing + SavedPaths(items[..i]))
    ensures forall i :: 0 <= i < |items| && items[i].Saved? ==> items[i].path !in existing
    ensures forall i, k :: 0 <= i < k < |items| && items[i].Saved? && items[k].Saved?
                           ==> items[i].path != items[k].path
  {
    Batch.NothingOverwritten(items, SavedFile, existing);
  }
}

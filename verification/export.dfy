/** The main window's transcript export, `extract_transcripts`
    (main.py:852-975): for each selected video, a file named after its
    channel and title is created in the chosen folder without overwriting
    anything, the transcript is fetched with the Whisper tier allowed, and
    the file receives either the transcript or a failure note.

    `str.isalnum` is a parameter (the Unicode tables are not modelled).
    Opening a file is an oracle over paths; the fetch is
    `get_video_transcript` with its oracles taken per video id. The header
    lines, the progress messages and the error log are output only.

    The success test the source applies to the fetched string
    (main.py:915-927) is modelled as written in CountedAsWritten, and
    shown to count several Whisper diagnostics as transcripts. The export
    itself uses Delivered, which asks the structured result instead.
 */
module Export {
  import opened Wrappers
  import opened Text
  import opened Videos
  import opened Naming
  import opened Batch
  import opened Quota
  import opened Captions
  import opened Acquire
  import opened ExportLoop
  import Whisper

  const ChannelLimit: nat := 30
  const TitleLimit: nat := 50
  const Separator := " _ "
  const Extension := ".txt"

  /** The two phrases whose presence marks a fetched string as an error
      message. */
  const MarkerError := "오류가 발생했습니다"
  const MarkerUnavailable := "추출할 수 없습니다"

  // ---------------------------------------------------------------------
  // File names

  /** The characters a name keeps. */
  predicate Kept(c: char, isAlnum: char -> bool) {
    isAlnum(c) || c == ' ' || c == '-' || c == '_'
  }

  /** `"".join(c for c in s if c.isalnum() or c in (' ', '-', '_'))`. */
  function Filter(s: string, isAlnum: char -> bool): (r: string)
    ensures |r| <= |s|
    ensures forall c :: c in r <==> c in s && Kept(c, isAlnum)
    ensures FilterOf(r, s, c => Kept(c, isAlnum))
  {
    if s == [] then []
    else
      var rest := Filter(s[1..], isAlnum);
      FilterCons(s, rest, c => Kept(c, isAlnum));
      if Kept(s[0], isAlnum) then [s[0]] + rest else rest
  }

  /** Filtering works character by character: filtering a concatenation
      concatenates the filtered parts. */
  lemma {:induction false} FilterAppend(a: string, b: string, isAlnum: char -> bool)
    ensures Filter(a + b, isAlnum) == Filter(a, isAlnum) + Filter(b, isAlnum)
  {
    if a == [] {
      assert a + b == b;
    } else {
      assert (a + b)[1..] == a[1..] + b;
      FilterAppend(a[1..], b, isAlnum);
    }
  }

  /** A string of kept characters passes the filter unchanged. */
  lemma {:induction false} FilterKeepsAll(s: string, isAlnum: char -> bool)
    requires forall k :: 0 <= k < |s| ==> Kept(s[k], isAlnum)
    ensures Filter(s, isAlnum) == s
  {
    if s != [] {
      FilterKeepsAll(s[1..], isAlnum);
      assert [s[0]] + s[1..] == s;
    }
  }

  /** A name part: filtered, stripped, then cut to `limit` characters. */
  function SafeName(s: string, isAlnum: char -> bool, limit: nat): (r: string)
    ensures |r| <= limit
    ensures forall k :: 0 <= k < |r| ==> Kept(r[k], isAlnum)
    ensures r == [] || !IsSpace(r[0])
    ensures r == [] <==> AllSpace(Filter(s, isAlnum)) || limit == 0
  {
    var t := Strip(Filter(s, isAlnum));
    StripWithin(Filter(s, isAlnum));
    Take(t, limit)
  }

  /** A name that is already safe (only kept characters, no surrounding
      whitespace, within the limit) is left as it is. */
  lemma SafeNameFixed(s: string, isAlnum: char -> bool, limit: nat)
    requires forall k :: 0 <= k < |s| ==> Kept(s[k], isAlnum)
    requires Trimmed(s) && |s| <= limit
    ensures SafeName(s, isAlnum, limit) == s
  {
    FilterKeepsAll(s, isAlnum);
    StripTrimmed(s);
  }

  /** The name without its extension: `"{channel} _ {title}"`. */
  function Stem(v: Video, isAlnum: char -> bool): string {
    SafeName(v.channelTitle, isAlnum, ChannelLimit) + Separator + SafeName(v.title, isAlnum, TitleLimit)
  }

  /** `f"{channel_name} _ {video_title}.txt"`. */
  function FileName(v: Video, isAlnum: char -> bool): string {
    Stem(v, isAlnum) + Extension
  }

  /** No '/' and no '.': text that stays inside one path component and
      adds no extension. */
  predicate Plain(s: string) {
    forall k :: 0 <= k < |s| ==> s[k] != '/' && s[k] != '.'
  }

  lemma PlainAppend(a: string, b: string)
    requires Plain(a) && Plain(b)
    ensures Plain(a + b)
  {
    assert forall k :: |a| <= k < |a + b| ==> (a + b)[k] == b[k - |a|];
  }

  /** A name part keeps neither '/' nor '.' when `isalnum` rejects both. */
  lemma SafeNamePlain(s: string, isAlnum: char -> bool, limit: nat)
    requires !isAlnum('/') && !isAlnum('.')
    ensures Plain(SafeName(s, isAlnum, limit))
  {
    var r := SafeName(s, isAlnum, limit);
    forall k | 0 <= k < |r|
      ensures r[k] != '/' && r[k] != '.'
    {
      assert Kept(r[k], isAlnum);
    }
  }

  /** Python's `str.isalnum` is false for '/' and '.', so the stem has
      neither. */
  lemma StemPlain(v: Video, isAlnum: char -> bool)
    requires !isAlnum('/') && !isAlnum('.')
    ensures |Stem(v, isAlnum)| <= ChannelLimit + TitleLimit + 3
    ensures Stem(v, isAlnum) != [] && Plain(Stem(v, isAlnum))
  {
    SafeNamePlain(v.channelTitle, isAlnum, ChannelLimit);
    SafeNamePlain(v.title, isAlnum, TitleLimit);
    Separated(SafeName(v.channelTitle, isAlnum, ChannelLimit), SafeName(v.title, isAlnum, TitleLimit));
  }

  /** Two plain parts around the separator make a plain, non-empty stem. */
  lemma Separated(ch: string, ti: string)
    requires Plain(ch) && Plain(ti)
    ensures var s := ch + Separator + ti; |s| == |ch| + 3 + |ti| && Plain(s)
  {
    assert Plain(Separator);
    PlainAppend(ch, Separator);
    PlainAppend(ch + Separator, ti);
  }

  /** A name stays one path component and is at most 87 characters. */
  lemma FileNamePlain(v: Video, isAlnum: char -> bool)
    requires !isAlnum('/') && !isAlnum('.')
    ensures var name := FileName(v, isAlnum);
            |name| <= ChannelLimit + TitleLimit + 7 && forall i :: 0 <= i < |name| ==> name[i] != '/'
  {
    StemPlain(v, isAlnum);
    NameOfStem(Stem(v, isAlnum), FileName(v, isAlnum));
  }

  /** A plain stem with the extension is one path component. */
  lemma NameOfStem(stem: string, name: string)
    requires Plain(stem) && |stem| <= ChannelLimit + TitleLimit + 3
    requires name == stem + Extension
    ensures |name| <= ChannelLimit + TitleLimit + 7 && forall i :: 0 <= i < |name| ==> name[i] != '/'
  {
    assert forall i :: |stem| <= i < |name| ==> name[i] == Extension[i - |stem|];
  }

  /** A name's only dot starts the extension, and every numbered
      alternative is `"{folder}/{channel} _ {title}_{k}.txt"`. */
  lemma FileNameShape(folder: string, v: Video, isAlnum: char -> bool, k: nat)
    requires !isAlnum('/') && !isAlnum('.')
    ensures SplitExt(JoinPath(folder, FileName(v, isAlnum))) == (JoinPath(folder, Stem(v, isAlnum)), Extension)
    ensures k > 0 ==> TriedPath(JoinPath(folder, FileName(v, isAlnum)), k)
                      == JoinPath(folder, Stem(v, isAlnum)) + "_" + NatToString(k) + Extension
  {
    StemPlain(v, isAlnum);
    JoinTxt(folder, Stem(v, isAlnum));
  }

  // ---------------------------------------------------------------------
  // The success test

  /** The source's test of a fetched string: truthy, not blank, and free of
      both marker phrases. */
  predicate CountedAsWritten(transcript: Option<string>) {
    && transcript.Some? && !AllSpace(transcript.value)
    && !Contains(transcript.value, MarkerError) && !Contains(transcript.value, MarkerUnavailable)
  }

  /** `sub in s` puts every character of `sub` in `s`. */
  lemma ContainsChar(s: string, sub: string, j: nat)
    requires j < |sub|
    ensures Contains(s, sub) ==> sub[j] in s
  {
    if Contains(s, sub) {
      var i := ContainsWitness(s, sub);
      assert s[i + j] == sub[j];
    }
  }

  /** A non-blank text with neither '류' nor '할' passes the test. */
  lemma PassesWithoutMarkers(s: string)
    requires '류' !in s && '할' !in s && !AllSpace(s)
    ensures CountedAsWritten(Some(s))
  {
    ContainsChar(s, MarkerError, 1);
    ContainsChar(s, MarkerUnavailable, 2);
  }

  /** The four diagnostics without a marker phrase lack its characters. */
  lemma TooLongPlain()
    ensures '류' !in Whisper.MsgTooLong && '할' !in Whisper.MsgTooLong
  {
    TooLongLacksRyu();
  }

  lemma TooLongLacksRyu()
    ensures '류' !in Whisper.MsgTooLong
  {
  }

  lemma NoAudioPlain()
    ensures '류' !in Whisper.MsgNoAudio && '할' !in Whisper.MsgNoAudio
  {
  }

  lemma TooShortPlain()
    ensures '류' !in Whisper.MsgTooShort && '할' !in Whisper.MsgTooShort
  {
  }

  lemma NoTextPlain()
    ensures '류' !in Whisper.MsgNoText && '할' !in Whisper.MsgNoText
  {
  }

  /** Four of the Whisper tier's diagnostics contain neither marker phrase,
      so the source counts them as extracted transcripts. */
  lemma DiagnosticsCountedAsWritten(o: Whisper.Outcome)
    requires o.TooLong? || o.NoAudio? || o.TooShort? || o.NoText?
    ensures Whisper.IsDiagnostic(o)
    ensures CountedAsWritten(Whisper.Render(o))
  {
    Whisper.DiagnosticsLookLikeText(o);
    TooLongPlain();
    NoAudioPlain();
    TooShortPlain();
    NoTextPlain();
    PassesWithoutMarkers(Whisper.Render(o).value);
  }

  /** The other three diagnostics carry a marker phrase. */
  lemma FailuresRejectedAsWritten(o: Whisper.Outcome)
    requires o.Restricted? || o.RecognitionFailed? || o.ExtractionFailed?
    ensures !CountedAsWritten(Whisper.Render(o))
  {
    match o
    case Restricted =>
      assert Whisper.MsgRestricted == "해당 영상은 다운로드가 제한되어 있어 대본을 " + MarkerUnavailable + ".";
      ContainsInfix("해당 영상은 다운로드가 제한되어 있어 대본을 ", MarkerUnavailable, ".");
    case RecognitionFailed(e) =>
      assert Whisper.MsgRecognitionPrefix == "음성 인식 처리 중 " + MarkerError + ": ";
      assert Whisper.MsgRecognitionPrefix + e == "음성 인식 처리 중 " + MarkerError + (": " + e);
      ContainsInfix("음성 인식 처리 중 ", MarkerError, ": " + e);
    case ExtractionFailed(e) =>
      assert Whisper.MsgExtractionPrefix == "대본 추출 중 " + MarkerError + ": ";
      assert Whisper.MsgExtractionPrefix + e == "대본 추출 중 " + MarkerError + (": " + e);
      ContainsInfix("대본 추출 중 ", MarkerError, ": " + e);
  }

  /** A genuine transcript that happens to say one of the marker phrases
      is counted as a failure. */
  lemma MarkerInTranscriptRejected(before: string, after: string)
    ensures !CountedAsWritten(Some(before + MarkerError + after))
  {
    ContainsInfix(before, MarkerError, after);
  }

  /** The intended test: a transcript was delivered when the fetch returned
      text that is a caption or a recognised speech text, never a
      diagnostic. */
  predicate Delivered(a: Acquired) {
    a.transcript.Some? && (a.whisper.None? || a.whisper.value.outcome.Heard?)
  }

  /** What get_video_transcript returns with the Whisper tier allowed. */
  function Fetch(t: Tracker, whisperAvailable: bool, listing: Raisable<Listing>, steps: Whisper.Steps): Acquired {
    GetVideoTranscript(t, true, false, whisperAvailable, listing, steps)
  }

  /** Delivered is exactly "text and not a diagnostic", every delivered
      text is non-blank, and every acceptable caption is delivered whatever
      it says. */
  lemma DeliveredExactly(t: Tracker, whisperAvailable: bool, listing: Raisable<Listing>, steps: Whisper.Steps)
    ensures var a := Fetch(t, whisperAvailable, listing, steps);
            Delivered(a) <==> a.transcript.Some? && !(a.whisper.Some? && Whisper.IsDiagnostic(a.whisper.value.outcome))
    ensures var a := Fetch(t, whisperAvailable, listing, steps);
            Delivered(a) ==> !AllSpace(a.transcript.value)
    ensures CleanCaption(listing).Some? ==> Delivered(Fetch(t, whisperAvailable, listing, steps))
  {
    var a := Fetch(t, whisperAvailable, listing, steps);
    if a.whisper.Some? && a.whisper.value.outcome.Silent? {
      assert a.transcript.None?;
    }
    if Delivered(a) {
      var text := a.transcript.value;
      if a.whisper.None? {
        assert |Strip(text)| > 50;
      } else {
        assert |text| > Whisper.MinTextLength;
        assert !IsSpace(text[0]);
      }
    }
  }

  /** The two tests disagree only on the four diagnostics without a marker
      phrase and on delivered texts that say a marker phrase. */
  lemma ClassifiersDiffer(t: Tracker, whisperAvailable: bool, listing: Raisable<Listing>, steps: Whisper.Steps)
    ensures var a := Fetch(t, whisperAvailable, listing, steps);
            CountedAsWritten(a.transcript) && !Delivered(a) ==>
              a.whisper.Some? && var o := a.whisper.value.outcome;
              o.TooLong? || o.NoAudio? || o.TooShort? || o.NoText?
    ensures var a := Fetch(t, whisperAvailable, listing, steps);
            Delivered(a) && !CountedAsWritten(a.transcript) ==>
              Contains(a.transcript.value, MarkerError) || Contains(a.transcript.value, MarkerUnavailable)
  {
    var a := Fetch(t, whisperAvailable, listing, steps);
    DeliveredExactly(t, whisperAvailable, listing, steps);
    if a.whisper.Some? {
      var o := a.whisper.value.outcome;
      if o.Restricted? || o.RecognitionFailed? || o.ExtractionFailed? {
        FailuresRejectedAsWritten(o);
      }
    }
  }

  // ---------------------------------------------------------------------
  // The export loop

  /** The body for a fetch result. */
  function BodyOf(a: Acquired): (b: Body)
    ensures b.Transcript? <==> Delivered(a) && !AllSpace(a.transcript.value)
    ensures b.Transcript? || b.Reported? ==> a.transcript == Some(b.text)
    ensures b.NoTranscript? <==> a.transcript.None? || AllSpace(a.transcript.value)
  {
    if a.transcript.None? || AllSpace(a.transcript.value) then NoTranscript
    else if Delivered(a) then Transcript(a.transcript.value)
    else Reported(a.transcript.value)
  }

  /** The body the source writes (main.py:914-930): the transcript when the
      fetched string passes its marker test, the string as a failure note
      when it is non-blank but carries a marker phrase, and the fixed
      failure note otherwise. */
  function BodyAsWritten(a: Acquired): (b: Body)
    ensures b.Transcript? <==> CountedAsWritten(a.transcript)
    ensures b.Transcript? || b.Reported? ==> a.transcript == Some(b.text)
    ensures b.NoTranscript? <==> a.transcript.None? || AllSpace(a.transcript.value)
  {
    if a.transcript.None? || AllSpace(a.transcript.value) then NoTranscript
    else if CountedAsWritten(a.transcript) then Transcript(a.transcript.value)
    else Reported(a.transcript.value)
  }

  /** The written and the corrected body agree on every fetch except the
      four Whisper diagnostics without a marker phrase (written as
      transcripts) and delivered texts that say a marker phrase (written as
      failure notes). */
  lemma BodiesDiffer(t: Tracker, whisperAvailable: bool, listing: Raisable<Listing>, steps: Whisper.Steps)
    ensures var a := Fetch(t, whisperAvailable, listing, steps);
            BodyAsWritten(a) != BodyOf(a) ==>
              || (a.whisper.Some? && var o := a.whisper.value.outcome;
                  o.TooLong? || o.NoAudio? || o.TooShort? || o.NoText?)
              || Contains(a.transcript.value, MarkerError) || Contains(a.transcript.value, MarkerUnavailable)
  {
    ClassifiersDiffer(t, whisperAvailable, listing, steps);
    DeliveredExactly(t, whisperAvailable, listing, steps);
  }

  /** The chosen folder, `str.isalnum`, which paths can be opened, and the
      oracles of the transcript fetch, per video id. */
  datatype Env = Env(
    folder: string,
    isAlnum: char -> bool,
    canOpen: string -> bool,
    tracker: Tracker,
    whisperAvailable: bool,
    listing: string -> Raisable<Listing>,
    steps: string -> Whisper.Steps)

  function FetchFor(env: Env, v: Video): Acquired {
    Fetch(env.tracker, env.whisperAvailable, env.listing(v.videoId), env.steps(v.videoId))
  }

  function JobFor(env: Env, v: Video): Job {
    Job(JoinPath(env.folder, FileName(v, env.isAlnum)), BodyOf(FetchFor(env, v)))
  }

  datatype Export =
    | NothingSelected
    | NoFolder
    | Exported(entries: seq<Entry>, extracted: nat)

  /** `extract_transcripts`: refuse without a selection, do nothing when
      the folder dialog is cancelled (an empty folder), otherwise export
      every selected video. */
  method ExtractTranscripts(videos: seq<Video>, env: Env, existing: set<string>) returns (r: Export)
    ensures r.NothingSelected? <==> videos == []
    ensures r.NoFolder? <==> videos != [] && env.folder == []
    ensures r.Exported? ==>
              && |r.entries| == |videos|
              && r.extracted == Count(r.entries, Extracted) <= |videos|
              && forall i :: 0 <= i < |videos| ==>
                   EntryFor(r.entries[i], JobFor(env, videos[i]), env.canOpen,
                            existing + Created(r.entries[..i], WrittenFile))
  {
    if videos == [] {
      return NothingSelected;
    }
    if env.folder == [] {
      return NoFolder;
    }
    var jobs := seq(|videos|, i requires 0 <= i < |videos| => JobFor(env, videos[i]));
    var entries, extracted := ExportAll(jobs, env.canOpen, existing);
    AllForEach(entries, jobs, EntryRelation(env.canOpen), WrittenFile, existing);
    r := Exported(entries, extracted);
  }

  /** Export never overwrites: every created file was free beforehand and
      no two videos share a file; a video counts exactly when its file was
      created and the fetch delivered a transcript. */
  lemma ExportSound(videos: seq<Video>, env: Env, existing: set<string>, entries: seq<Entry>)
    requires |entries| == |videos|
    requires forall i :: 0 <= i < |videos| ==>
               EntryFor(entries[i], JobFor(env, videos[i]), env.canOpen, existing + Created(entries[..i], WrittenFile))
    ensures forall i :: 0 <= i < |entries| && entries[i].Written? ==> entries[i].path !in existing
    ensures forall i, k :: 0 <= i < k < |entries| && entries[i].Written? && entries[k].Written?
                           ==> entries[i].path != entries[k].path
    ensures forall i :: 0 <= i < |entries| ==>
              (Extracted(entries[i]) <==> env.canOpen(entries[i].path) && Delivered(FetchFor(env, videos[i])))
  {
    Batch.NothingOverwritten(entries, WrittenFile, existing);
    forall i | 0 <= i < |entries|
      ensures Extracted(entries[i]) <==> env.canOpen(entries[i].path) && Delivered(FetchFor(env, videos[i]))
    {
      var v := videos[i];
      DeliveredExactly(env.tracker, env.whisperAvailable, env.listing(v.videoId), env.steps(v.videoId));
    }
  }
}

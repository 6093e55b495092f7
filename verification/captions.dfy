/** Caption tracks as the transcript library hands them over, and the
    caption side of the API client: `_process_transcript_data`
    (youtube_api.py:441-486), the track chooser
    `_extract_clean_youtube_transcript` (youtube_api.py:404-439) and
    `get_transcript_batch` (youtube_api.py:488-535).

    The library is an oracle. A listing maps a language code to the track
    `find_transcript([lang])` returns and, separately, to the track
    `find_generated_transcript([lang])` returns; a language missing from a
    map stands for the lookup raising. Fetching a track either yields its
    fragments or raises.
 */
module Captions {
  import opened Wrappers
  import opened Text

  /** A fragment's `text` value: a string, or something that is not one. */
  datatype Value = Str(s: string) | NotStr

  /** One fetched fragment: a dict (its `text` key possibly absent), an
      object with a `text` attribute, or anything else. */
  datatype Fragment = DictFragment(text: Option<Value>) | ObjectFragment(value: Value) | OtherFragment(repr: string)

  datatype Track = Track(isGenerated: bool, fetched: Raisable<seq<Fragment>>)

  datatype Listing = Listing(find: map<string, Track>, generated: map<string, Track>)

  /** The caption texts `_process_transcript_data` discards. */
  predicate IsNoise(t: string) {
    t == "" || t == "[Music]" || t == "[음악]" || t == "[박수]" || t == "[웃음]"
  }

  /** The text a fragment offers: a dict's `text` (default ""), an
      object's `text`, or `str(item)`. */
  function FragmentText(f: Fragment): Value {
    match f
    case DictFragment(t) => t.GetOr(Str(""))
    case ObjectFragment(v) => v
    case OtherFragment(r) => Str(r)
  }

  /** What one fragment contributes: its stripped text, unless that text is
      noise or the fragment offers no string. */
  function Kept(f: Fragment): (r: Option<string>)
    ensures r.Some? ==> r.value != [] && Trimmed(r.value) && !IsNoise(r.value)
  {
    match FragmentText(f)
    case NotStr => None
    case Str(s) =>
      var t := Strip(s);
      if IsNoise(t) then None else Some(t)
  }

  /** The fragments that survive, stripped and in order. */
  function Survivors(fs: seq<Fragment>): (parts: seq<string>)
    ensures |parts| <= |fs|
    ensures forall k :: 0 <= k < |parts| ==> parts[k] != [] && Trimmed(parts[k]) && !IsNoise(parts[k])
  {
    var kept := seq(|fs|, j requires 0 <= j < |fs| => Kept(fs[j]));
    var parts := Present(kept);
    PresentKept(fs, kept, parts);
    parts
  }

  lemma PresentKept(fs: seq<Fragment>, kept: seq<Option<string>>, parts: seq<string>)
    requires |kept| == |fs| && forall j :: 0 <= j < |fs| ==> kept[j] == Kept(fs[j])
    requires forall k :: 0 <= k < |parts| ==> Some(parts[k]) in kept
    ensures forall k :: 0 <= k < |parts| ==> parts[k] != [] && Trimmed(parts[k]) && !IsNoise(parts[k])
  {
    forall k | 0 <= k < |parts|
      ensures parts[k] != [] && Trimmed(parts[k]) && !IsNoise(parts[k])
    {
      var j :| 0 <= j < |kept| && kept[j] == Some(parts[k]);
      assert Kept(fs[j]).Some?;
    }
  }

  // ---------------------------------------------------------------------
  // Whitespace clean-up

  /** `re.sub(r'\s+', ' ', s)`: every run of whitespace becomes one space. */
  function Collapse(s: string): (r: string)
    ensures r == [] <==> s == []
    ensures r != [] ==> (IsSpace(r[0]) <==> IsSpace(s[0]))
    ensures forall k :: 0 <= k < |r| && IsSpace(r[k]) ==> r[k] == ' '
    ensures forall k :: 0 <= k < |r| - 1 ==> !(IsSpace(r[k]) && IsSpace(r[k + 1]))
    decreases |s|
  {
    if s == [] then []
    else if !IsSpace(s[0]) then
      var t := Collapse(s[1..]);
      [s[0]] + t
    else
      var t := Collapse(LStrip(s[1..]));
      [' '] + t
  }

  /** Collapsing keeps a non-space last character. */
  lemma {:induction false} CollapseLast(s: string)
    requires s != [] && !IsSpace(s[|s| - 1])
    ensures var c := Collapse(s); c != [] && c[|c| - 1] == s[|s| - 1]
    decreases |s|
  {
    var last := s[|s| - 1];
    if !IsSpace(s[0]) {
      if |s| > 1 {
        var t := s[1..];
        assert t[|t| - 1] == last;
        CollapseLast(t);
        assert Collapse(s) == [s[0]] + Collapse(t);
      }
    } else {
      var t := s[1..];
      assert t[|t| - 1] == last;
      var n := LeadingSpaces(t);
      var l := t[n..];
      assert n < |t|;
      assert l[|l| - 1] == last;
      CollapseLast(l);
      assert Collapse(s) == [' '] + Collapse(l);
    }
  }

  /** The characters of a string that are not whitespace, in order. */
  function Squeeze(s: string): (r: string)
    ensures forall k :: 0 <= k < |r| ==> !IsSpace(r[k])
  {
    if s == [] then [] else (if IsSpace(s[0]) then [] else [s[0]]) + Squeeze(s[1..])
  }

  lemma {:induction false} SqueezeAppend(a: string, b: string)
    ensures Squeeze(a + b) == Squeeze(a) + Squeeze(b)
  {
    if a != [] {
      assert (a + b)[1..] == a[1..] + b;
      SqueezeAppend(a[1..], b);
    } else {
      assert a + b == b;
    }
  }

  lemma {:induction false} SqueezeSpaces(s: string)
    requires AllSpace(s)
    ensures Squeeze(s) == []
  {
    if s != [] {
      SqueezeSpaces(s[1..]);
    }
  }

  /** Collapsing keeps every non-space character, in order. */
  lemma {:induction false} CollapseKeepsText(s: string)
    ensures Squeeze(Collapse(s)) == Squeeze(s)
    decreases |s|
  {
    if s != [] {
      if !IsSpace(s[0]) {
        CollapseKeepsText(s[1..]);
        assert Collapse(s) == [s[0]] + Collapse(s[1..]);
        SqueezeAppend([s[0]], Collapse(s[1..]));
      } else {
        var l := LStrip(s[1..]);
        CollapseKeepsText(l);
        assert Collapse(s) == [' '] + Collapse(l);
        SqueezeAppend([' '], Collapse(l));
        var gap := s[1..][..|s| - 1 - |l|];
        assert s[1..] == gap + l;
        SqueezeSpaces(gap);
        SqueezeAppend(gap, l);
      }
    }
  }

  predicate IsLineBreak(c: char) {
    c == '\r' || c == '\n'
  }

  /** `re.sub(r'[\r\n]+', ' ', s)`: every run of line breaks becomes one space. */
  function JoinLines(s: string): (r: string)
    ensures forall k :: 0 <= k < |r| ==> !IsLineBreak(r[k])
    decreases |s|
  {
    if s == [] then []
    else if !IsLineBreak(s[0]) then [s[0]] + JoinLines(s[1..])
    else [' '] + JoinLines(DropLineBreaks(s[1..]))
  }

  function DropLineBreaks(s: string): (r: string)
    ensures |r| <= |s|
  {
    if s != [] && IsLineBreak(s[0]) then DropLineBreaks(s[1..]) else s
  }

  /** Text without line breaks passes the second substitution unchanged. */
  lemma {:induction false} JoinLinesNoBreaks(s: string)
    requires forall k :: 0 <= k < |s| ==> !IsLineBreak(s[k])
    ensures JoinLines(s) == s
  {
    if s != [] {
      JoinLinesNoBreaks(s[1..]);
    }
  }

  /** `_process_transcript_data(data)`: the surviving fragments joined by
      single spaces, whitespace runs collapsed, line breaks replaced and
      the ends stripped; None for no data or no survivor. */
  function ProcessTranscriptData(fs: seq<Fragment>): (r: Option<string>)
  {
    if fs == [] then None
    else
      var parts := Survivors(fs);
      if parts == [] then None
      else
        var full := Strip(JoinLines(Collapse(Join(parts, " "))));
        if full == [] then None else Some(full)
  }

  /** The shape of every cleaned text: trimmed, non-empty, its only
      whitespace single spaces, never two in a row, no line breaks; it is
      None exactly when no fragment survives; and its non-space characters
      are those of the surviving fragments, in order. */
  lemma ProcessedShape(fs: seq<Fragment>)
    ensures var r := ProcessTranscriptData(fs);
            && (r.None? <==> Survivors(fs) == [])
            && (r.Some? ==> && r.value != [] && Trimmed(r.value)
                            && r.value == Collapse(Join(Survivors(fs), " "))
                            && (forall k :: 0 <= k < |r.value| && IsSpace(r.value[k]) ==> r.value[k] == ' ')
                            && (forall k :: 0 <= k < |r.value| - 1 ==> !(IsSpace(r.value[k]) && IsSpace(r.value[k + 1])))
                            && Squeeze(r.value) == Squeeze(Join(Survivors(fs), " ")))
  {
    var parts := Survivors(fs);
    if parts != [] {
      assert fs != [];
      var joined := Join(parts, " ");
      JoinTrimmed(parts);
      CollapseClean(joined);
      CollapseKeepsText(joined);
    }
  }

  /** Collapsing a non-empty trimmed text leaves it trimmed and without
      line breaks, so the later substitution and strip change nothing. */
  lemma CollapseClean(s: string)
    requires s != [] && Trimmed(s)
    ensures var c := Collapse(s); c != [] && Trimmed(c) && Strip(JoinLines(c)) == c
  {
    var c := Collapse(s);
    CollapseLast(s);
    assert forall k :: 0 <= k < |c| ==> !IsLineBreak(c[k]);
    JoinLinesNoBreaks(c);
    StripTrimmed(c);
  }

  /** Joining non-empty trimmed parts with spaces gives a non-empty trimmed
      text. */
  lemma {:induction false} JoinTrimmed(parts: seq<string>)
    requires parts != []
    requires forall k :: 0 <= k < |parts| ==> parts[k] != [] && Trimmed(parts[k])
    ensures var j := Join(parts, " "); j != [] && Trimmed(j)
  {
    if |parts| > 1 {
      JoinTrimmed(parts[1..]);
      var rest := Join(parts[1..], " ");
      var j := parts[0] + " " + rest;
      assert j[0] == parts[0][0];
      assert j[|j| - 1] == rest[|rest| - 1];
    }
  }

  // ---------------------------------------------------------------------
  // Choosing a track

  /** `language_priority` of the API client. */
  const Priority: seq<string> := ["ko", "en", "ja", "zh"]

  /** The acceptance test shared by the chooser and the batch: a cleaned
      text whose stripped length exceeds 50. */
  predicate Meaningful(text: Option<string>) {
    text.Some? && text.value != [] && |Strip(text.value)| > 50
  }

  /** What one lookup contributes: the cleaned text of the track found for
      `lang`, if it is acceptable (and manual, when `manualOnly`). */
  function Candidate(lookups: map<string, Track>, lang: string, manualOnly: bool): (r: Option<string>)
    ensures r.Some? ==> Meaningful(r)
  {
    if lang !in lookups then None
    else
      var t := lookups[lang];
      if manualOnly && t.isGenerated then None
      else
        match t.fetched
        case Raised(_) => None
        case Ok(fs) =>
          var clean := ProcessTranscriptData(fs);
          if Meaningful(clean) then clean else None
  }

  /** Every language's candidate, in priority order. */
  function Candidates(lookups: map<string, Track>, langs: seq<string>, manualOnly: bool): (cs: seq<Option<string>>)
    ensures |cs| == |langs|
    ensures forall i :: 0 <= i < |langs| ==> cs[i] == Candidate(lookups, langs[i], manualOnly)
  {
    seq(|langs|, i requires 0 <= i < |langs| => Candidate(lookups, langs[i], manualOnly))
  }

  /** The first acceptable candidate in priority order. */
  function FirstCandidate(lookups: map<string, Track>, langs: seq<string>, manualOnly: bool): (r: Option<string>)
    ensures r.None? <==> forall i :: 0 <= i < |langs| ==> Candidate(lookups, langs[i], manualOnly).None?
    ensures r.Some? ==> Meaningful(r)
  {
    var cs := Candidates(lookups, langs, manualOnly);
    var r := FirstSome(cs);
    assert r.Some? ==> exists i :: 0 <= i < |cs| && cs[i] == r;
    r
  }

  /** The chooser takes the candidate of the first language that has one. */
  lemma FirstCandidateIsFirst(lookups: map<string, Track>, langs: seq<string>, manualOnly: bool, i: nat)
    requires i < |langs| && Candidate(lookups, langs[i], manualOnly).Some?
    requires forall j :: 0 <= j < i ==> Candidate(lookups, langs[j], manualOnly).None?
    ensures FirstCandidate(lookups, langs, manualOnly) == Candidate(lookups, langs[i], manualOnly)
  {
    FirstSomeIsFirst(Candidates(lookups, langs, manualOnly), i);
  }

  /** `_extract_clean_youtube_transcript(video_id)`: manual tracks in
      priority order, then generated ones; None when the listing raised. */
  function CleanCaption(listing: Raisable<Listing>): (r: Option<string>)
    ensures r.Some? ==> Meaningful(r)
    ensures listing.Raised? ==> r.None?
  {
    match listing
    case Raised(_) => None
    case Ok(l) =>
      var manual := FirstCandidate(l.find, Priority, true);
      if manual.Some? then manual else FirstCandidate(l.generated, Priority, false)
  }

  /** Manual tracks win: whenever a manual track in any priority language is
      acceptable, the result comes from the manual pass, whatever the
      generated tracks hold. */
  lemma ManualFirst(l: Listing, i: nat)
    requires i < |Priority| && Candidate(l.find, Priority[i], true).Some?
    ensures CleanCaption(Ok(l)) == FirstCandidate(l.find, Priority, true)
    ensures CleanCaption(Ok(l)).Some?
  {
  }

  /** A generated track is used only when no manual track qualifies. */
  lemma GeneratedOnlyAfterManual(l: Listing)
    requires CleanCaption(Ok(l)) != FirstCandidate(l.find, Priority, true)
    ensures forall i :: 0 <= i < |Priority| ==> Candidate(l.find, Priority[i], true).None?
  {
  }

  /** With no acceptable manual track in any priority language, the result
      is the first acceptable generated track in priority order. */
  lemma GeneratedWhenNoManual(l: Listing)
    requires forall i :: 0 <= i < |Priority| ==> Candidate(l.find, Priority[i], true).None?
    ensures CleanCaption(Ok(l)) == FirstCandidate(l.generated, Priority, false)
  {
    assert FirstCandidate(l.find, Priority, true).None?;
  }

  // ---------------------------------------------------------------------
  // Batch

  /** The transcripts of `get_transcript_batch(ids)`: for every id whose
      caption is acceptable, its cleaned text. `captions` gives each id's
      listing; an id missing from it stands for the listing raising. */
  function CaptionFor(captions: map<string, Raisable<Listing>>, id: string): Option<string> {
    if id in captions then CleanCaption(captions[id]) else None
  }

  /** `get_transcript_batch(video_ids)`: the result map and the ids that
      failed, in the order they were tried. */
  method TranscriptBatch(ids: seq<string>, captions: map<string, Raisable<Listing>>)
    returns (results: map<string, string>, failed: seq<string>)
    ensures forall id :: id in results <==> id in ids && Meaningful(CaptionFor(captions, id))
    ensures forall id :: id in results ==> CaptionFor(captions, id) == Some(results[id])
    ensures forall id :: id in failed <==> id in ids && !Meaningful(CaptionFor(captions, id))
    ensures |failed| <= |ids|
  {
    results := map[];
    failed := [];
    for i := 0 to |ids|
      invariant forall id :: id in results <==> id in ids[..i] && Meaningful(CaptionFor(captions, id))
      invariant forall id :: id in results ==> CaptionFor(captions, id) == Some(results[id])
      invariant forall id :: id in failed <==> id in ids[..i] && !Meaningful(CaptionFor(captions, id))
      invariant |failed| <= i
    {
      var clean := CaptionFor(captions, ids[i]);
      if clean.Some? && |Strip(clean.value)| > 50 {
        results := results[ids[i] := clean.value];
      } else {
        failed := failed + [ids[i]];
      }
      assert ids[..i + 1] == ids[..i] + [ids[i]];
    }
    assert ids[..|ids|] == ids;
  }

  /** The batch admits exactly the ids the chooser finds a caption for:
      its own length test never rejects a chosen caption. */
  lemma BatchAgreesWithChooser(captions: map<string, Raisable<Listing>>, id: string)
    ensures Meaningful(CaptionFor(captions, id)) <==> CaptionFor(captions, id).Some?
  {
  }
}

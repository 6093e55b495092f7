/** `get_video_transcript(video_id, use_whisper, force_transcript_only)`
    (youtube_api.py:350-402): captions first; then, unless the caller or an
    exhausted quota forces caption-only mode, the Whisper tier when it is
    requested and installed.

    The caption listing and the Whisper steps are the oracles of the
    Captions and Whisper modules. The one-second pause before Whisper is
    timing only and is left out.
 */
module Acquire {
  import opened Wrappers
  import opened Quota
  import opened Captions
  import Whisper

  /** What the call returns, and the Whisper run when the tier was
      invoked. */
  datatype Acquired = Acquired(transcript: Option<string>, whisper: Option<Whisper.Run>)

  /** Caption-only mode: asked for, or forced by a quota that cannot cover
      one more unit. */
  predicate CaptionOnly(t: Tracker, forceOnly: bool) {
    forceOnly || !Available(t, 1)
  }

  /** Python truthiness of the cleaned caption. */
  predicate Truthy(text: Option<string>) {
    text.Some? && text.value != []
  }

  function GetVideoTranscript(t: Tracker, useWhisper: bool, forceOnly: bool, whisperAvailable: bool,
                              listing: Raisable<Listing>, steps: Whisper.Steps): (a: Acquired)
    ensures a.whisper.Some? ==> useWhisper && whisperAvailable && !CaptionOnly(t, forceOnly)
    ensures a.whisper.Some? ==> CleanCaption(listing).None?
    ensures a.whisper.None? ==> a.transcript == CleanCaption(listing)
    ensures a.whisper.Some? ==> a.transcript == Whisper.Render(a.whisper.value.outcome)
  {
    var force := forceOnly || !Available(t, 1);
    var clean := CleanCaption(listing);
    if Truthy(clean) then Acquired(clean, None)
    else if force then Acquired(None, None)
    else if useWhisper && whisperAvailable then
      if Available(t, 0) then
        var run := Whisper.Transcribe(whisperAvailable, steps);
        Acquired(Whisper.Render(run.outcome), Some(run))
      else Acquired(None, None)
    else Acquired(None, None)
  }

  /** An acceptable caption is returned as is, and Whisper is not run. */
  lemma CaptionWins(t: Tracker, useWhisper: bool, forceOnly: bool, whisperAvailable: bool,
                    listing: Raisable<Listing>, steps: Whisper.Steps)
    requires CleanCaption(listing).Some?
    ensures var a := GetVideoTranscript(t, useWhisper, forceOnly, whisperAvailable, listing, steps);
            a.transcript == CleanCaption(listing) && a.whisper.None?
            && Meaningful(a.transcript)
  {
  }

  /** In caption-only mode Whisper never runs, and a missing caption gives
      None. */
  lemma CaptionOnlyNeverRunsWhisper(t: Tracker, useWhisper: bool, forceOnly: bool, whisperAvailable: bool,
                                    listing: Raisable<Listing>, steps: Whisper.Steps)
    requires CaptionOnly(t, forceOnly)
    ensures var a := GetVideoTranscript(t, useWhisper, forceOnly, whisperAvailable, listing, steps);
            a.whisper.None? && (CleanCaption(listing).None? ==> a.transcript.None?)
  {
  }

  /** The second quota check never fails: once a unit was available, zero
      units are. So Whisper runs exactly when no caption qualifies, the
      mode is not caption-only, and Whisper is requested and installed. */
  lemma WhisperRunsExactly(t: Tracker, useWhisper: bool, forceOnly: bool, whisperAvailable: bool,
                           listing: Raisable<Listing>, steps: Whisper.Steps)
    ensures GetVideoTranscript(t, useWhisper, forceOnly, whisperAvailable, listing, steps).whisper.Some?
            <==> CleanCaption(listing).None? && !CaptionOnly(t, forceOnly) && useWhisper && whisperAvailable
  {
    if !CaptionOnly(t, forceOnly) {
      AvailableSmaller(t, 1, 0);
    }
  }
}

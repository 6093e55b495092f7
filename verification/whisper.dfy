/** The speech-to-text tier `_extract_transcript_with_whisper_improved`
    (youtube_api.py:537-654): download the audio with yt-dlp, run Whisper on
    it, and map every way that can end to the string (or None) the method
    returns.

    yt-dlp, Whisper, the temporary directory and the directory listing are
    oracles: each step is given as its outcome. The method's result is kept
    in structured form (an Outcome) and rendered to the source's strings by
    Render, so that callers can reason about which case they received.
 */
module Whisper {
  import opened Wrappers
  import opened Text

  /** The longest video, in seconds, that is sent to Whisper. */
  const MaxSeconds: int := 600
  /** A recognised text must be longer than this after stripping. */
  const MinTextLength: nat := 10

  const MsgTooLong: string := "영상이 너무 길어 Whisper 처리를 건너뜁니다. (10분 초과)"
  const MsgRestricted: string := "해당 영상은 다운로드가 제한되어 있어 대본을 추출할 수 없습니다."
  const MsgNoAudio: string := "오디오 파일 추출에 실패했습니다."
  const MsgTooShort: string := "추출된 대본이 너무 짧습니다."
  const MsgNoText: string := "Whisper가 텍스트를 추출하지 못했습니다."
  const MsgRecognitionPrefix: string := "음성 인식 처리 중 오류가 발생했습니다: "
  const MsgExtractionPrefix: string := "대본 추출 중 오류가 발생했습니다: "

  /** How one run of the external steps goes.
      - `modelLoaded`: a model is already cached on the client;
      - `load`: loading one, when needed (its value is unused);
      - `tempDir`: `tempfile.mkdtemp()`;
      - `probe`: the `duration` read from `extract_info` (an exception in
        `extract_info` or in reading the field is Raised);
      - `download`: `ydl.download(...)`;
      - `audioFound`: whether the listing found a `.wav` file for the video
        that still exists (Raised when the listing itself raised);
      - `recognised`: the `text` of Whisper's result, None when the result
        or its text is missing (Raised when `transcribe` raised). */
  datatype Steps = Steps(
    modelLoaded: bool,
    load: Raisable<bool>,
    tempDir: Raisable<bool>,
    probe: Raisable<int>,
    download: Raisable<bool>,
    audioFound: Raisable<bool>,
    recognised: Raisable<Option<string>>)

  /** Every way the method ends. `Silent` is a bare None return. */
  datatype Outcome =
    | Silent
    | Heard(text: string)
    | TooLong
    | Restricted
    | NoAudio
    | TooShort
    | NoText
    | RecognitionFailed(error: string)
    | ExtractionFailed(error: string)

  /** The outcome together with what happened to the temporary directory:
      whether it was created, and whether the `finally` block tried to
      remove it. */
  datatype Run = Run(outcome: Outcome, tempCreated: bool, cleanupTried: bool)

  /** A download failure names an access restriction when its message
      mentions HTTP 403. */
  predicate IsForbidden(message: string) {
    Contains(message, "403") || Contains(message, "Forbidden")
  }

  /** The part of the method after the temporary directory exists: the
      download, the audio lookup and the recognition. */
  function AfterTempDir(steps: Steps): (o: Outcome)
    ensures o.Heard? ==> |o.text| > MinTextLength && Trimmed(o.text)
    ensures o.Heard? ==> steps.recognised.Ok? && steps.recognised.value.Some?
                         && o.text == Strip(steps.recognised.value.value)
    ensures o == TooLong <==> steps.probe.Ok? && steps.probe.value > MaxSeconds
    ensures o.Silent? ==> steps.probe.Raised? || steps.download.Raised?
  {
    if steps.probe.Raised? then
      if IsForbidden(steps.probe.message) then Restricted else Silent
    else if steps.probe.value > MaxSeconds then TooLong
    else if steps.download.Raised? then
      if IsForbidden(steps.download.message) then Restricted else Silent
    else
      match steps.audioFound
      case Raised(e) => ExtractionFailed(e)
      case Ok(found) =>
        if !found then NoAudio
        else
          match steps.recognised
          case Raised(e) => RecognitionFailed(e)
          case Ok(text) =>
            if text.None? || text.value == [] then NoText
            else
              var t := Strip(text.value);
              if |t| > MinTextLength then Heard(t) else TooShort
  }

  /** `_extract_transcript_with_whisper_improved(video_id)`, given whether
      the Whisper packages are installed. */
  function Transcribe(available: bool, steps: Steps): (run: Run)
    ensures run.tempCreated ==> run.cleanupTried
    ensures run.tempCreated <==> available && (steps.modelLoaded || steps.load.Ok?) && steps.tempDir.Ok?
    ensures !available ==> run.outcome.Silent?
    ensures run.outcome.Heard? ==> |run.outcome.text| > MinTextLength
  {
    if !available then Run(Silent, false, false)
    else if !steps.modelLoaded && steps.load.Raised? then Run(Silent, false, false)
    else
      match steps.tempDir
      case Raised(e) => Run(ExtractionFailed(e), false, false)
      case Ok(_) => Run(AfterTempDir(steps), true, true)
  }

  /** The value the method returns for an outcome. */
  function Render(o: Outcome): (r: Option<string>)
    ensures r.None? <==> o.Silent?
  {
    match o
    case Silent => None
    case Heard(t) => Some(t)
    case TooLong => Some(MsgTooLong)
    case Restricted => Some(MsgRestricted)
    case NoAudio => Some(MsgNoAudio)
    case TooShort => Some(MsgTooShort)
    case NoText => Some(MsgNoText)
    case RecognitionFailed(e) => Some(MsgRecognitionPrefix + e)
    case ExtractionFailed(e) => Some(MsgExtractionPrefix + e)
  }

  /** A diagnostic that is not a recognised transcript. */
  predicate IsDiagnostic(o: Outcome) {
    !o.Silent? && !o.Heard?
  }

  /** Every rendered diagnostic is a non-empty, trimmed string, so a caller
      testing truthiness or stripped emptiness cannot tell it from a
      transcript. */
  lemma DiagnosticsLookLikeText(o: Outcome)
    requires IsDiagnostic(o)
    ensures Render(o).Some? && Render(o).value != [] && !AllSpace(Render(o).value)
  {
    var r := Render(o).value;
    assert r[0] == Render(o).value[0];
    assert !IsSpace(r[0]);
  }

  /** A long video is never downloaded: it is reported as too long whatever
      the later steps would have done. */
  lemma LongVideoSkipped(steps: Steps, other: Steps)
    requires steps.probe.Ok? && steps.probe.value > MaxSeconds
    requires other == steps.(download := other.download, audioFound := other.audioFound,
                             recognised := other.recognised)
    ensures AfterTempDir(steps) == AfterTempDir(other) == TooLong
  {
  }

  /** A download error is reported as a restriction exactly when it
      mentions 403 or Forbidden; otherwise the method returns None. */
  lemma DownloadErrorOutcome(steps: Steps)
    requires steps.probe.Ok? && steps.probe.value <= MaxSeconds && steps.download.Raised?
    ensures AfterTempDir(steps) == (if IsForbidden(steps.download.message) then Restricted else Silent)
    ensures Render(AfterTempDir(steps)) == (if IsForbidden(steps.download.message) then Some(MsgRestricted) else None)
  {
  }

  /** The recognised text is accepted exactly when its stripped form is
      longer than ten characters. */
  lemma RecognisedTextAccepted(steps: Steps, text: string)
    requires steps.probe.Ok? && steps.probe.value <= MaxSeconds && steps.download.Ok?
    requires steps.audioFound == Ok(true) && steps.recognised == Ok(Some(text))
    ensures AfterTempDir(steps).Heard? <==> |Strip(text)| > MinTextLength
    ensures AfterTempDir(steps).Heard? ==> AfterTempDir(steps).text == Strip(text)
  {
  }
}
